/**
 The use-case layer: `LoginInteractor`, which checks the password length
 and otherwise hands the credentials to its repository unchanged.

 So that "the repository is never called" can be stated about a pure
 function, an attempt reports, next to its outcome, the log of the calls it
 made to the repository.
 */
module LoginUseCase {
  import opened Domain
  import Auth

  /** The shortest password the use case lets through to the repository. */
  const MinPasswordLength: nat := 6

  /** The outcome of the local password check alone. */
  datatype Verdict = Accepted | Rejected(error: LoginError)

  /** The password guard: a password is acceptable exactly when it has at
      least `MinPasswordLength` characters; a shorter one is rejected with
      `InvalidPassword`. Nothing else about the password is looked at. */
  function ValidatePassword(password: string): (v: Verdict)
    ensures v.Accepted? <==> |password| >= MinPasswordLength
    ensures v.Rejected? ==> v.error == InvalidPassword
  {
    if |password| >= MinPasswordLength then Accepted else Rejected(InvalidPassword)
  }

  /** One login attempt as seen from outside the interactor: what it
      returned or threw, and the calls it made to the repository, in order. */
  datatype Attempt = Attempt(outcome: Result<User>, repositoryCalls: seq<Credentials>)

  /** `LoginInteractor.login`: the guard, then delegation to `repo`. */
  function Interact(repo: Repository, email: string, password: string): (a: Attempt)
    ensures |password| < MinPasswordLength ==>
              a.outcome == Err(InvalidPassword) && a.repositoryCalls == []
    ensures |password| >= MinPasswordLength ==>
              a.repositoryCalls == [Credentials(email, password)]
    ensures |password| >= MinPasswordLength ==>
              a.outcome == repo(email, password)
  {
    match ValidatePassword(password)
    case Rejected(e) => Attempt(Err(e), [])
    case Accepted => Attempt(repo(email, password), [Credentials(email, password)])
  }

  /** The interactor as a value of the `LoginUseCase` protocol: a short
      password is answered with `InvalidPassword`, any other one with
      exactly what the repository answers for the same credentials. */
  function Interactor(repo: Repository): (useCase: UseCase)
    ensures forall email, password :: |password| < MinPasswordLength ==>
              useCase(email, password) == Err(InvalidPassword)
    ensures forall email, password :: |password| >= MinPasswordLength ==>
              useCase(email, password) == repo(email, password)
  {
    (email, password) => Interact(repo, email, password).outcome
  }

  /** Boundary of the guard: five characters are too few, six are enough. */
  lemma PasswordBoundary(five: string, six: string)
    requires |five| == 5 && |six| == 6
    ensures ValidatePassword(five) == Rejected(InvalidPassword)
    ensures ValidatePassword(six) == Accepted
  {
  }

  /** Lengthening an accepted password never gets it rejected. */
  lemma LongerPasswordStaysAccepted(p: string, extra: string)
    requires ValidatePassword(p).Accepted?
    ensures ValidatePassword(p + extra).Accepted?
  {
  }

  /** Whatever the repository, the repository is called at most once, and
      it is called exactly when the guard accepts; every call carries the
      attempt's own e-mail and password. */
  lemma RepositoryCalledIffAccepted(repo: Repository, email: string, password: string)
    ensures |Interact(repo, email, password).repositoryCalls| <= 1
    ensures |Interact(repo, email, password).repositoryCalls| == 1 <==> ValidatePassword(password).Accepted?
    ensures forall c :: c in Interact(repo, email, password).repositoryCalls ==> c == Credentials(email, password)
  {
  }

  /** The e-mail is never inspected: with an acceptable password, every
      e-mail, the empty one included, reaches the repository, and the two
      attempts differ only in what the repository answers for each. */
  lemma EmailIsNotInspected(repo: Repository, e1: string, e2: string, password: string)
    requires |password| >= MinPasswordLength
    ensures Interact(repo, e1, password).repositoryCalls == [Credentials(e1, password)]
    ensures Interact(repo, e2, password).repositoryCalls == [Credentials(e2, password)]
    ensures repo(e1, password) == repo(e2, password) ==>
              Interact(repo, e1, password).outcome == Interact(repo, e2, password).outcome
  {
  }

  /** Every error the interactor throws is either its own `InvalidPassword`
      for a short password, or exactly the error the repository threw. */
  lemma ErrorsComeFromGuardOrRepository(repo: Repository, email: string, password: string)
    requires Interact(repo, email, password).outcome.Err?
    ensures
      || (Interact(repo, email, password).outcome.error == InvalidPassword && |password| < MinPasswordLength)
      || (repo(email, password).Err? && Interact(repo, email, password).outcome == repo(email, password))
  {
  }

  /** Wired to the stub repository, a login succeeds exactly when the
      password has at least six characters, and then yields the stub's user
      for the given e-mail. */
  lemma WithRemoteRepository(freshId: string, email: string, password: string)
    ensures (Interact(Auth.RemoteAuthRepository(freshId), email, password).outcome.Ok?
             <==> |password| >= MinPasswordLength)
    ensures |password| >= MinPasswordLength ==>
              Interact(Auth.RemoteAuthRepository(freshId), email, password).outcome
                == Ok(User(freshId, email, Auth.MockToken))
  {
  }
}
