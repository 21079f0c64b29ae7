# Clean-Architecture-Swift login core in Dafny

A model of the decision-making part of a small SwiftUI demo of a layered
login screen:

- **data layer**: the `AuthRepository` protocol and its stub
  `RemoteAuthRepository`. The stub accepts any credentials and returns a
  `User` with a fresh UUID, the given e-mail and the token
  `"mock_jwt_token"`. This is module `Auth` in `auth.dfy`.
- **use-case layer**: `LoginInteractor`. It rejects a password of fewer than
  six characters with `LoginError.invalidPassword`. Any other password goes
  to the repository unchanged, together with the e-mail. This is module
  `LoginUseCase` in `login_use_case.dfy`.
- **presentation layer**: the state `LoginViewModel` publishes (`email`,
  `password`, `isLoading`, `errorMessage`, `isLoggedIn`, `loggedInUser`)
  and its `login()` step. This is module `LoginViewModel` in
  `login_view_model.dfy`.
- **home screen**: `displayName` takes the first non-empty `'@'`-separated
  piece of the user's e-mail and capitalises it, falling back to `"User"`.
  This is module `HomeView` in `home_view.dfy`. It is built on module
  `Split` in `split.dfy`, which models Swift's `split(separator:)` with its
  default arguments, so empty pieces are dropped.

The shared entities are in module `Domain` (`domain.dfy`): `User`,
`LoginError`, `Result` and `Credentials`. The two protocols appear there as
function types. `LoginError` has `InvalidPassword` plus an opaque
`RepositoryFailure` that stands for any error a repository throws.

Everything is pure:

- A repository or a use case is a total function of e-mail and password.
- The interactor returns its outcome together with the log of the calls it
  made to the repository. This makes "the repository is not called" a
  property of the result.
- One `login()` is a transition from a `ViewState` record to a `Run`. A
  `Run` holds the loading state, the credentials the use case was asked
  about, the use case's answer and the final state.
- A password's `count` is the length of a sequence of characters. Each
  element stands for one user-perceived character.

Three facts about the Swift code shape the view-model part:

- The view model is a record of independent flags. A failed run after a
  successful one therefore leaves `isLoggedIn` true next to
  `"Login failed"`.
- One message, `"Login failed"`, is shown for every failure. An invalid
  password and a repository error are not told apart on screen (see
  `LoginViewModel.AllFailuresLookAlike`).
- `login()` has no guard on the current state: it may start from any state.

## Model

| member | source | states |
|---|---|---|
| `Auth.RemoteLogin` | Clean-Architecture-Swift/Data/Auth/RemoteRepository.swift:14-21 | the stub never throws; the user it returns carries the supplied fresh identifier, the input e-mail unchanged and the token `"mock_jwt_token"` |
| `Auth.RemoteAuthRepository` | Clean-Architecture-Swift/Data/Auth/RemoteRepository.swift:9-21 | the stub used through the `AuthRepository` protocol succeeds on every call, for any e-mail and any password (short or empty ones included), with the user built from the drawn identifier, the given e-mail and `"mock_jwt_token"` |
| `Auth.RemoteIgnoresPassword` | Clean-Architecture-Swift/Data/Auth/RemoteRepository.swift:14-20 | the stub's answer does not depend on the password argument |
| `Auth.DistinctIdsGiveDistinctUsers` | Clean-Architecture-Swift/Data/Auth/RemoteRepository.swift:17 | users issued under different identifiers differ; uniqueness of the identifiers themselves is assumed of `UUID()`, not proved |
| `LoginUseCase.ValidatePassword` | Clean-Architecture-Swift/UseCases/LoginUseCase.swift:20-22 | a password is accepted if and only if it has at least 6 characters; a rejection always carries `InvalidPassword` |
| `LoginUseCase.Interact` | Clean-Architecture-Swift/UseCases/LoginUseCase.swift:19-24 | a short password throws `InvalidPassword` and makes no repository call; otherwise exactly one call is made, with the same e-mail and password, and its outcome is returned as is |
| `LoginUseCase.Interactor` | Clean-Architecture-Swift/UseCases/LoginUseCase.swift:8-24 | the interactor used through the `LoginUseCase` protocol answers a password of fewer than 6 characters with `InvalidPassword`, and any other with exactly the repository's answer for the same e-mail and password |
| `LoginUseCase.PasswordBoundary` | Clean-Architecture-Swift/UseCases/LoginUseCase.swift:20 | any 5-character password is rejected and any 6-character one accepted |
| `LoginUseCase.LongerPasswordStaysAccepted` | Clean-Architecture-Swift/UseCases/LoginUseCase.swift:20 | extending an accepted password never gets it rejected |
| `LoginUseCase.RepositoryCalledIffAccepted` | Clean-Architecture-Swift/UseCases/LoginUseCase.swift:20-23 | for any repository: at most one call; a call happens if and only if the guard accepts; every call carries the attempt's own credentials |
| `LoginUseCase.EmailIsNotInspected` | Clean-Architecture-Swift/UseCases/LoginUseCase.swift:19-23 | with a long-enough password, every e-mail, the empty one included, reaches the repository; attempts with different e-mails differ only through the repository's answers |
| `LoginUseCase.ErrorsComeFromGuardOrRepository` | Clean-Architecture-Swift/UseCases/LoginUseCase.swift:20-23 | every error the interactor throws is either `InvalidPassword` for a short password or exactly the error the repository threw |
| `LoginUseCase.WithRemoteRepository` | Clean-Architecture-Swift/UseCases/LoginUseCase.swift:19-23 | over the stub repository, a login succeeds if and only if the password has at least 6 characters, and then yields the stub's user for the given e-mail |
| `Split.LeadingRun` | Clean-Architecture-Swift/UI/HomeView.swift:15 | the piece split starts with is the longest `'@'`-free prefix: a prefix of the input, free of the separator, ending at the input's end or just before a separator, and non-empty when the input starts with a non-separator |
| `Split.SplitOn` | Clean-Architecture-Swift/UI/HomeView.swift:15 | `split(separator:)` with default arguments: every piece is non-empty and holds no separator |
| `Split.ConcatSplitIsWithout` | Clean-Architecture-Swift/UI/HomeView.swift:15 | the pieces glued back together give the input with its separators removed, so nothing but separators is lost |
| `Split.SplitEmptyIffAllSeparators` | Clean-Architecture-Swift/UI/HomeView.swift:15-16 | split yields no piece if and only if the input is empty or consists of separators only |
| `Split.SplitOfFree` | Clean-Architecture-Swift/UI/HomeView.swift:15 | a non-empty input without separators is split into itself alone |
| `Split.SplitSkipsLeadingSeparators` | Clean-Architecture-Swift/UI/HomeView.swift:15 | leading separators produce no piece: prefixing them leaves the split unchanged |
| `Split.SplitFirstPiece` | Clean-Architecture-Swift/UI/HomeView.swift:15 | a non-empty separator-free run followed by a separator is the first piece, followed by the pieces of the rest |
| `Split.SplitScan` | Clean-Architecture-Swift/UI/HomeView.swift:15 | the single-pass scan that closes a piece at each separator, dropping empty ones, and at the end produces exactly the pieces of `SplitOn` |
| `HomeView.NameSegment` | Clean-Architecture-Swift/UI/HomeView.swift:14-16 | the piece chosen for capitalisation is absent if and only if the e-mail is empty or all `'@'`s; when present it is non-empty and holds no `'@'` |
| `HomeView.DisplayName` | Clean-Architecture-Swift/UI/HomeView.swift:13-18 | an empty or all-`'@'` e-mail greets `"User"`; any other e-mail greets the capitalisation of its first non-empty `'@'`-free piece |
| `HomeView.DisplayNameWithoutAt` | Clean-Architecture-Swift/UI/HomeView.swift:14-17 | a non-empty e-mail without `'@'` is capitalised as a whole |
| `HomeView.DisplayNameOfLocalPart` | Clean-Architecture-Swift/UI/HomeView.swift:14-17 | for `local@domain` with a non-empty local part, the text before the first `'@'` is capitalised, whatever the domain holds |
| `HomeView.DisplayNameSkipsLeadingAt` | Clean-Architecture-Swift/UI/HomeView.swift:14-16 | leading `'@'`s do not change the greeting |
| `HomeView.DisplayNameOfLeadingAtExample` | Clean-Architecture-Swift/UI/HomeView.swift:14-17 | `"@bob@x"` greets the capitalisation of `"bob"` |
| `HomeView.DisplayNameNeverEmpty` | Clean-Architecture-Swift/UI/HomeView.swift:17 | if capitalising keeps non-empty strings non-empty, the greeting is never empty |
| `LoginViewModel.InitialState` | Clean-Architecture-Swift/Presentation/Login/LoginViewModel.swift:12-18 | a new view model has empty credentials, is not loading, has no message, is not logged in and has no user, and this is a settled state |
| `LoginViewModel.EditCredentials` | Clean-Architecture-Swift/Presentation/Login/LoginViewModel.swift:12-13 | writing the e-mail and password fields changes nothing else |
| `LoginViewModel.LeaveHome` | Clean-Architecture-Swift/UI/LoginView.swift:39-43 | leaving the home screen switches `isLoggedIn` off through the navigation binding and keeps the last user and every other field |
| `LoginViewModel.BeginLogin` | Clean-Architecture-Swift/Presentation/Login/LoginViewModel.swift:27-28 | on entry, loading is on and the message is cleared, while credentials and login fields are kept |
| `LoginViewModel.FinishLogin` | Clean-Architecture-Swift/Presentation/Login/LoginViewModel.swift:32-44 | a returned user is recorded and marks the screen logged in; any thrown error sets `"Login failed"` and leaves `isLoggedIn` and `loggedInUser` untouched; loading ends on both paths |
| `LoginViewModel.Login` | Clean-Architecture-Swift/Presentation/Login/LoginViewModel.swift:26-45 | a run is loading with no message before the use case runs, with credentials and login fields as they were; the use case is asked about the current e-mail and password, which the run never changes; success records the user with no message; failure shows `"Login failed"` without resetting the login fields; loading ends on both paths |
| `LoginViewModel.LoginPreservesSettled` | Clean-Architecture-Swift/Presentation/Login/LoginViewModel.swift:26-45 | from a settled state a run ends settled, whatever the use case answers: not loading, logged in only with a user, no message but `"Login failed"`. Editing the credentials and leaving the home screen keep a state settled too. |
| `LoginViewModel.AllFailuresLookAlike` | Clean-Architecture-Swift/Presentation/Login/LoginViewModel.swift:40-41 | an invalid password and a repository error leave exactly the same state |
| `LoginViewModel.OnlyTheAnswerMatters` | Clean-Architecture-Swift/Presentation/Login/LoginViewModel.swift:33-36 | a run depends on the use case only through its answer for the state's own credentials |
| `LoginViewModel.AppLogin` | Clean-Architecture-Swift/Presentation/Login/LoginViewModel.swift:26-45 | with the app's wiring, a run logs in if and only if the password has at least 6 characters, with the stub's user for the entered e-mail; otherwise the repository is never reached, `"Login failed"` is shown and the login fields keep their values |
| `LoginViewModel.RecoversAfterFailure` | Clean-Architecture-Swift/Presentation/Login/LoginViewModel.swift:26-45 | no state is terminal: after a failed run, entering a password of at least 6 characters and running again logs in, with no message |
| `LoginViewModel.SuccessiveLoginsGiveDistinctUsers` | Clean-Architecture-Swift/Presentation/Login/LoginViewModel.swift:33-38 | two successful runs with different identifiers drawn by the stub leave different users |

## Left out

- The one-second `Task.sleep` before the use case runs (LoginViewModel.swift:30). It is a suspension point: while it lasts, the text fields can still change `email` and `password`, and the Login button stays enabled. The Swift code reads the credentials after the sleep (LoginViewModel.swift:34-35). `LoginViewModel.Login` reads them at entry, so edits made while loading are not modelled.
- The `print` of the logged-in e-mail (LoginViewModel.swift:39): logging only.
- `async`/`await`, `@MainActor` and Combine's `@Published` change notifications: `login()` is modelled as one sequential step. Each published field's final value is modelled, not the stream of notifications. The loading state is exposed as the `loading` part of a `Run`.
- Re-entrant `login()` calls while one is still loading: concurrency is not modelled.
- `UUID().uuidString`: it is random, so the identifier is a parameter (`freshId`). Its uniqueness is not proved.
- Auth.DistinctIdsGiveDistinctUsers: states distinctness of users only for distinct identifiers, because uniqueness of `UUID()` results is outside the model.
- HomeView.DisplayName: Foundation's `capitalized` depends on the locale and on Unicode data, so it is a function parameter. Every property holds for every choice of it, except `HomeView.DisplayNameNeverEmpty`, which assumes that capitalising keeps a non-empty string non-empty.
- Swift's `split` is modelled only with its default arguments (`maxSplits` unbounded, `omittingEmptySubsequences` true), the only form the home screen uses.
- `password.count` counts grapheme clusters. Here it is the length of the character sequence, with each element standing for one grapheme cluster. Unicode segmentation is not modelled.
- `LoginView.swift` and the `body` of `HomeView`: SwiftUI layout and navigation with no decisions in them. Two of its writes to the view model are modelled: the text fields write the credentials (`LoginViewModel.EditCredentials`), and the navigation binding switches `isLoggedIn` off when the user leaves the home screen (`LoginViewModel.LeaveHome`).
- `DependencyContainer.swift` and `CleanAuthApp.swift`: lazy wiring and the app entry point. The wiring they build, the interactor over the stub, appears as `LoginViewModel.AppUseCase`.
