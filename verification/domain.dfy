/**
 The entities shared by every layer of the login flow: the user record the
 authentication repository produces, the errors a login attempt can raise,
 and the function types of the two protocols (`AuthRepository` and
 `LoginUseCase`) through which the layers call each other.

 Strings are sequences of abstract characters. Where the app counts
 characters (`password.count`), one element of the sequence stands for one
 user-perceived character (a grapheme cluster), not for a byte.
 */
module Domain {

  /** An optional value, standing for Swift's `T?`. */
  datatype Option<+T> = None | Some(value: T)

  /** The signed-in user: an opaque identifier, the e-mail it was issued
      for, and a session token. */
  datatype User = User(id: string, email: string, token: string)

  /** What a login attempt can throw: the use case's own password check,
      or whatever error the repository reports (opaque to the caller). */
  datatype LoginError =
    | InvalidPassword
    | RepositoryFailure(reason: string)

  /** Either the user a login produced or the error it threw. */
  datatype Result<+T> = Ok(value: T) | Err(error: LoginError)

  /** The two values handed from one layer to the next on every call. */
  datatype Credentials = Credentials(email: string, password: string)

  /** `AuthRepository.login(email:password:)`: any implementation of the
      remote identity check, as a total function of its two arguments. */
  type Repository = (string, string) -> Result<User>

  /** `LoginUseCase.login(email:password:)`: the capability the view model
      is built on. */
  type UseCase = (string, string) -> Result<User>
}
