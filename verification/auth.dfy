/**
 The data layer: the always-succeeding stub behind the `AuthRepository`
 protocol. The identifier the stub draws from `UUID()` is random, so it is
 a parameter here (`freshId`); nothing below assumes it is unique.
 */
module Auth {
  import opened Domain

  /** The placeholder session token the stub hands out. */
  const MockToken: string := "mock_jwt_token"

  /** `RemoteAuthRepository.login`: builds the user record for the given
      e-mail, ignoring the password, and never throws. */
  function RemoteLogin(freshId: string, email: string, password: string): (r: Result<User>)
    ensures r.Ok?
    ensures r.value.email == email
    ensures r.value.token == MockToken
    ensures r.value.id == freshId
  {
    Ok(User(freshId, email, MockToken))
  }

  /** The stub as a value of the `AuthRepository` protocol, for the
      identifier its next call will draw: every call succeeds with the user
      for that identifier and the given e-mail, whatever the password. */
  function RemoteAuthRepository(freshId: string): (repo: Repository)
    ensures forall email, password :: repo(email, password) == Ok(User(freshId, email, MockToken))
  {
    (email, password) => RemoteLogin(freshId, email, password)
  }

  /** The stub's answer does not depend on the password: two calls with
      the same identifier and e-mail agree whatever passwords they carry. */
  lemma RemoteIgnoresPassword(freshId: string, email: string, p1: string, p2: string)
    ensures RemoteLogin(freshId, email, p1) == RemoteLogin(freshId, email, p2)
  {
  }

  /** Users issued under two different identifiers are different users,
      even for the same e-mail: distinctness of the identifiers is all the
      stub relies on to tell sessions apart. */
  lemma DistinctIdsGiveDistinctUsers(id1: string, id2: string, email1: string, email2: string, p1: string, p2: string)
    requires id1 != id2
    ensures RemoteLogin(id1, email1, p1).value != RemoteLogin(id2, email2, p2).value
  {
  }
}
