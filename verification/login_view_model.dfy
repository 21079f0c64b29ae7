/**
 The presentation layer: the state `LoginViewModel` publishes to the login
 screen, and one run of its `login()` as a pure transition.

 A run is one sequential step: the view model marks itself loading, asks
 its use case about the credentials it currently holds, and records the
 answer. The use case is a parameter, so every property below holds for
 any implementation of the `LoginUseCase` protocol unless it names the
 app's own wiring (the interactor over the stub repository).
 */
module LoginViewModel {
  import opened Domain
  import LoginUseCase
  import Auth

  /** The one message shown for every kind of failure. */
  const FailureMessage: string := "Login failed"

  /** The published fields, plus the user of the last successful login. */
  datatype ViewState = ViewState(
    email: string,
    password: string,
    isLoading: bool,
    errorMessage: Option<string>,
    isLoggedIn: bool,
    loggedInUser: Option<User>)

  /** The state a freshly built view model starts in. */
  const Initial: ViewState := ViewState("", "", false, None, false, None)

  /** A state the screen can rest in between runs: not loading, logged in
      only with a user to show, and no message but the failure message. */
  predicate Settled(st: ViewState)
  {
    && !st.isLoading
    && (st.isLoggedIn ==> st.loggedInUser.Some?)
    && (st.errorMessage.Some? ==> st.errorMessage.value == FailureMessage)
  }

  /** The text fields write the credentials; nothing else changes. */
  function EditCredentials(st: ViewState, email: string, password: string): (edited: ViewState)
    ensures edited.email == email && edited.password == password
    ensures edited.isLoading == st.isLoading && edited.errorMessage == st.errorMessage
    ensures edited.isLoggedIn == st.isLoggedIn && edited.loggedInUser == st.loggedInUser
  {
    st.(email := email, password := password)
  }

  /** Leaving the home screen: the navigation binding switches `isLoggedIn`
      off; the user of the last login is kept and nothing else changes. */
  function LeaveHome(st: ViewState): (back: ViewState)
    ensures !back.isLoggedIn && back.loggedInUser == st.loggedInUser
    ensures back.email == st.email && back.password == st.password
    ensures back.isLoading == st.isLoading && back.errorMessage == st.errorMessage
  {
    st.(isLoggedIn := false)
  }

  /** Entering `login()`: loading is switched on and any earlier message is
      cleared, before the use case runs. */
  function BeginLogin(st: ViewState): (loading: ViewState)
    ensures loading.isLoading && loading.errorMessage == None
    ensures loading.email == st.email && loading.password == st.password
    ensures loading.isLoggedIn == st.isLoggedIn && loading.loggedInUser == st.loggedInUser
  {
    st.(isLoading := true, errorMessage := None)
  }

  /** Leaving `login()` with the use case's answer: a user is recorded and
      marks the screen logged in; any thrown error only sets the failure
      message and leaves the login fields as they were. Loading ends on
      both paths. */
  function FinishLogin(loading: ViewState, outcome: Result<User>): (done: ViewState)
    ensures !done.isLoading
    ensures done.email == loading.email && done.password == loading.password
    ensures outcome.Ok? ==>
              done.isLoggedIn && done.loggedInUser == Some(outcome.value)
              && done.errorMessage == loading.errorMessage
    ensures outcome.Err? ==>
              done.errorMessage == Some(FailureMessage)
              && done.isLoggedIn == loading.isLoggedIn && done.loggedInUser == loading.loggedInUser
  {
    match outcome
    case Ok(user) => loading.(loggedInUser := Some(user), isLoggedIn := true, isLoading := false)
    case Err(_) => loading.(errorMessage := Some(FailureMessage), isLoading := false)
  }

  /** One run of `login()`: the state while loading, the credentials the use
      case was asked about, its answer, and the state afterwards. */
  datatype Run = Run(loading: ViewState, request: Credentials, outcome: Result<User>, done: ViewState)

  /** `LoginViewModel.login()` with `useCase` as the injected use case. */
  function Login(st: ViewState, useCase: UseCase): (run: Run)
    ensures run.loading.isLoading && run.loading.errorMessage == None
    ensures run.loading.email == st.email && run.loading.password == st.password
    ensures run.loading.isLoggedIn == st.isLoggedIn && run.loading.loggedInUser == st.loggedInUser
    ensures run.request == Credentials(st.email, st.password)
    ensures run.outcome == useCase(st.email, st.password)
    ensures !run.done.isLoading
    ensures run.done.email == st.email && run.done.password == st.password
    ensures run.outcome.Ok? ==>
              run.done.isLoggedIn && run.done.loggedInUser == Some(run.outcome.value)
              && run.done.errorMessage == None
    ensures run.outcome.Err? ==>
              run.done.errorMessage == Some(FailureMessage)
              && run.done.isLoggedIn == st.isLoggedIn && run.done.loggedInUser == st.loggedInUser
  {
    var loading := BeginLogin(st);
    var request := Credentials(st.email, st.password);
    var outcome := useCase(request.email, request.password);
    Run(loading, request, outcome, FinishLogin(loading, outcome))
  }

  /** The app's wiring: the interactor over the stub repository, with the
      identifier the stub will draw on this call. */
  function AppUseCase(freshId: string): UseCase
  {
    LoginUseCase.Interactor(Auth.RemoteAuthRepository(freshId))
  }

  /** The initial state: empty credentials, not loading, no message, not
      logged in, no user; it is a settled state. */
  lemma InitialState()
    ensures Initial.email == [] && Initial.password == []
    ensures !Initial.isLoading && Initial.errorMessage == None
    ensures !Initial.isLoggedIn && Initial.loggedInUser == None
    ensures Settled(Initial)
  {
  }

  /** A run takes a settled state to a settled state, whatever the use case
      answers; editing the credentials and leaving the home screen keep a
      state settled too. */
  lemma LoginPreservesSettled(st: ViewState, useCase: UseCase, email: string, password: string)
    requires Settled(st)
    ensures Settled(Login(st, useCase).done)
    ensures Settled(EditCredentials(st, email, password))
    ensures Settled(LeaveHome(st))
  {
  }

  /** Failures are indistinguishable on screen: an invalid password and any
      repository error leave exactly the same state behind. */
  lemma AllFailuresLookAlike(st: ViewState, useCase1: UseCase, useCase2: UseCase)
    requires useCase1(st.email, st.password).Err? && useCase2(st.email, st.password).Err?
    ensures Login(st, useCase1).done == Login(st, useCase2).done
  {
  }

  /** The run's result depends on the use case only through its answer for
      the state's own credentials. */
  lemma OnlyTheAnswerMatters(st: ViewState, useCase1: UseCase, useCase2: UseCase)
    requires useCase1(st.email, st.password) == useCase2(st.email, st.password)
    ensures Login(st, useCase1) == Login(st, useCase2)
  {
  }

  /** With the app's wiring, a run logs in exactly when the password has at
      least six characters, with the stub's user for the entered e-mail;
      otherwise the repository is never reached, the failure message is
      shown, and the login fields keep their previous values. */
  lemma AppLogin(st: ViewState, freshId: string)
    ensures (Login(st, AppUseCase(freshId)).outcome.Ok?
             <==> |st.password| >= LoginUseCase.MinPasswordLength)
    ensures |st.password| >= LoginUseCase.MinPasswordLength ==>
              && Login(st, AppUseCase(freshId)).done.isLoggedIn
              && Login(st, AppUseCase(freshId)).done.loggedInUser == Some(User(freshId, st.email, Auth.MockToken))
              && Login(st, AppUseCase(freshId)).done.errorMessage == None
    ensures |st.password| < LoginUseCase.MinPasswordLength ==>
              && Login(st, AppUseCase(freshId)).outcome == Err(InvalidPassword)
              && LoginUseCase.Interact(Auth.RemoteAuthRepository(freshId), st.email, st.password).repositoryCalls == []
              && Login(st, AppUseCase(freshId)).done.errorMessage == Some(FailureMessage)
              && Login(st, AppUseCase(freshId)).done.isLoggedIn == st.isLoggedIn
              && Login(st, AppUseCase(freshId)).done.loggedInUser == st.loggedInUser
  {
  }

  /** No state is terminal: after a failed run, entering a password of at
      least six characters and running again logs in. */
  lemma RecoversAfterFailure(st: ViewState, useCase: UseCase, email: string, password: string, freshId: string)
    requires Login(st, useCase).outcome.Err?
    requires |password| >= LoginUseCase.MinPasswordLength
    ensures Login(st, useCase).done.errorMessage == Some(FailureMessage)
    ensures
      var retry := Login(EditCredentials(Login(st, useCase).done, email, password), AppUseCase(freshId)).done;
      retry.isLoggedIn && retry.errorMessage == None
      && retry.loggedInUser == Some(User(freshId, email, Auth.MockToken))
  {
  }

  /** Two successful runs in a row, with different identifiers drawn by the
      stub, leave different users behind. */
  lemma SuccessiveLoginsGiveDistinctUsers(st: ViewState, id1: string, id2: string)
    requires |st.password| >= LoginUseCase.MinPasswordLength
    requires id1 != id2
    ensures
      var first := Login(st, AppUseCase(id1)).done;
      var second := Login(first, AppUseCase(id2)).done;
      first.loggedInUser.Some? && second.loggedInUser.Some? && first.loggedInUser != second.loggedInUser
  {
  }
}
