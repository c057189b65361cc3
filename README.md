# SupabaseTest front-end core, modelled in Dafny

This project models the logic of a small React front-end. The front-end
signs users in and out through a hosted identity service and stores their
images and videos in an object store under a per-user folder. Three pieces
carry the logic.

- **Auth context** (`AuthContext.dfy`). `translateError` is an ordered,
  first-match substring classifier. It maps the identity service's error
  text to fixed Portuguese messages, with a fallback that echoes the text.
  Every auth call wraps the service's `{data, error}` reply into
  `{success, data}` or `{success: false, error: {message}}`. The provider
  keeps a two-field store: `session` starts `undefined`, `loading` starts
  `true`. Each session callback stores the delivered session and clears
  `loading` for good. Children are rendered only when `loading` is false.
- **Route guard** (`RouteGuard.dfy`). `PrivateRoute` makes a three-way
  decision on `loading` and `session`: placeholder, redirect to `/signin`,
  or the protected children. The file also composes the guard with the
  provider's gate and with the session callbacks.
- **Dashboard controller** (`Dashboard.dfy`).
  - Storage keys are `userId + "/" + id` for uploads and `userId + "/" + name`
    for public URLs.
  - The upload status moves `null → uploading → success | error → null`, and
    each terminal status schedules a reset after 3000 ms.
  - The gallery list is replaced only when the store returns an array.
  - A file is a video when its name ends in `.mp4`, `.webm` or `.ogg`,
    ignoring case.
  - The password-update and account-deletion handlers are modelled too.

The class `Dashboard.DashboardState` holds the component state. Its
handlers take the store's outcomes as parameters. `statusWrites` records
every status write and `requests` every store call, so the contracts can
say what each handler did and in which order. `Text.dfy` holds `includes`, plus
the suffix test and ASCII case folding that model the regular expression
`/\.(mp4|webm|ogg)$/i`. `IsPrefix` and `IsSuffix` are the model's own
vocabulary for stating facts about keys and extensions. `Wrappers.dfy` holds `Option`.

Some facts about the code that the model keeps:

- Upload keys are `userId + "/" + uuid`; no file name is appended.
- The code has no file deletion, no optimistic removal, no signed-URL
  upload and no per-item menu.
- An upload whose reply carries neither data nor error leaves the status at
  "uploading" with no reset scheduled, so the status does not always clear
  after 3 seconds.
- `signUpNewUser`, `updateUserPassword` and `deleteUserAccount` have no
  `try`/`catch`, so a throwing service call rejects their promise.

## Model

| member | source | states |
|---|---|---|
| `AuthContext.TranslateError` | src/context/AuthContext.jsx:11-20 | Total, and the translation is never empty. |
| `Text.ContainsIff` | src/context/AuthContext.jsx:13-17 | The left-to-right `includes` scan is true exactly when the pattern occurs at some index of the message. |
| `Text.Contains` | src/context/AuthContext.jsx:13-17 | JavaScript `includes`: the empty pattern is always found, and a found pattern is no longer than the message. |
| `AuthContext.FirstMatchIsLeast` | src/context/AuthContext.jsx:13-17 | The reference classifier returns the text of the lowest-numbered rule that fires. |
| `AuthContext.FirstMatchFallback` | src/context/AuthContext.jsx:19 | When no rule fires, the reference classifier returns "Erro: " followed by the message. |
| `AuthContext.TranslateErrorIsFirstMatch` | src/context/AuthContext.jsx:13-19 | The if-chain equals the first-match classification over the ordered rule table, including the rule with two alternative patterns. |
| `AuthContext.TranslateErrorFirstRuleWins` | src/context/AuthContext.jsx:13-17 | If rule i fires and no earlier rule does, the result is rule i's text, whatever later rules would match. |
| `AuthContext.TranslateErrorFallback` | src/context/AuthContext.jsx:19 | The result is "Erro: " + message if and only if no rule fires; the original message is then a suffix of the result. |
| `AuthContext.AlreadyRegisteredAlwaysWins` | src/context/AuthContext.jsx:13 | A message containing "User already registered" translates to exactly "Usuário já registrado.". |
| `AuthContext.InvalidCredentialsBeforeRateLimit` | src/context/AuthContext.jsx:14-16 | A message containing "Invalid login credentials" and then "Retry after" yields "Credenciais inválidas.", not the rate-limit text, unless the first rule fires. |
| `AuthContext.MissingFunctionDetected` | src/context/AuthContext.jsx:17 | Either "function public.delete_user" or "Could not find the function" yields the configuration-error text once the four earlier rules do not fire. |
| `AuthContext.Wrap` | src/context/AuthContext.jsx:28-32 | Failure exactly when the reply has an error, with its message translated and non-empty; otherwise success carrying the reply's data. Used for sign-up, password update (lines 80-84) and account deletion (lines 90-94). |
| `AuthContext.SignOut` | src/context/AuthContext.jsx:66-72 | Same wrapping with no data: failure exactly when an error was read, carrying its translation. |
| `AuthContext.SignInUserAsWritten` | src/context/AuthContext.jsx:37-50 | A returned reply is wrapped as by `Wrap`; a thrown value with a message becomes a translated failure; a thrown value without one makes the promise reject. |
| `AuthContext.SignInUserEscapes` | src/context/AuthContext.jsx:47-49 | A thrown value without a message escapes the as-written sign-in. |
| `AuthContext.SignInUser` | src/context/AuthContext.jsx:37-50 | Every outcome becomes a result: failure exactly when the call threw or reported an error, always with a non-empty message; a returned reply is wrapped as by `Wrap`. |
| `AuthContext.SignInUserAgrees` | src/context/AuthContext.jsx:37-50 | Wherever the as-written sign-in settles with a result, it equals the corrected one. |
| `AuthContext.SlotOf` | src/context/AuthContext.jsx:54-62 | A delivered session is stored as present and a missing one as null, never as undefined. |
| `AuthContext.Deliver` | src/context/AuthContext.jsx:54-62 | Each callback leaves the store not loading, holding the delivered session. |
| `AuthContext.ReplaySettles` | src/context/AuthContext.jsx:54-62 | Starting from the initial store of lines 7-8 and after a sequence of callbacks, the store is loading exactly when there were none (session still undefined); otherwise it holds the latest delivered session. |
| `AuthContext.Replay` | src/context/AuthContext.jsx:54-62 | Running the callbacks in order from the initial store leaves it loading exactly when no callback has arrived. |
| `AuthContext.LoadingNeverReturns` | src/context/AuthContext.jsx:54-62 | Once the store has stopped loading, no later sequence of callbacks makes it load again. |
| `AuthContext.AuthProvider.constructor` | src/context/AuthContext.jsx:7-8 | The store starts with session undefined and loading true. |
| `AuthContext.AuthProvider.Receive` | src/context/AuthContext.jsx:54-62 | Both the initial restore and every auth-state change update the store as `Deliver` does, and leave it not loading. |
| `AuthContext.AuthProvider.Render` | src/context/AuthContext.jsx:99 | The children are rendered, unchanged, exactly when the store is not loading. |
| `RouteGuard.PrivateRoute` | src/components/PrivateRoute.jsx:6-16 | Placeholder if and only if loading; redirect to "/signin" if and only if not loading and no session; the unchanged children if and only if not loading and a session is present. |
| `RouteGuard.PrivateRouteFollowsStates` | src/components/PrivateRoute.jsx:8-16 | The guard renders as the Loading / Authenticated / Unauthenticated state machine over the store's two values. |
| `RouteGuard.ProtectedPage` | src/context/AuthContext.jsx:97-101 | A protected route as mounted under the provider renders nothing while loading, and the guard's decision otherwise. |
| `RouteGuard.PlaceholderNeverShown` | src/components/PrivateRoute.jsx:8-10 | Under the provider the guard's placeholder is never displayed, because the provider holds its children back while loading. |
| `RouteGuard.ProtectedAfterCallbacks` | src/components/PrivateRoute.jsx:12-16 | After a sequence of callbacks, a protected page shows its content exactly when the latest callback delivered a session. It redirects to sign-in exactly when the latest delivered none, and shows nothing before the first. |
| `Dashboard.ListPrefix` | src/components/Dashboard.jsx:80 | The listed folder is the user id followed by a single "/". |
| `Dashboard.ObjectKey` | src/components/Dashboard.jsx:57 | Every key lies in the user's folder ("userId/" is a prefix) and the rest of the key is the given id or name. |
| `Dashboard.OwnerOfObjectKey` | src/components/Dashboard.jsx:57 | For a user id without "/", the part of a built key before its first "/" is that user id. |
| `Dashboard.KeysOfDifferentUsersDiffer` | src/components/Dashboard.jsx:78-80 | Keys built for two different slash-free user ids never coincide, so one user's folder never holds another user's upload. |
| `Dashboard.PublicUrlKeyOfUpload` | src/components/Dashboard.jsx:207-209 | An uploaded object, listed from its owner's folder, gets its public URL for the same key it was uploaded under. |
| `Dashboard.IsVideoIff` | src/components/Dashboard.jsx:211 | A name is a video exactly when some tail of it, with ASCII letters lower-cased, is ".mp4", ".webm" or ".ogg". |
| `Dashboard.IsVideo` | src/components/Dashboard.jsx:211 | A name is a video exactly when, with ASCII letters lower-cased, it ends in one of the listed extensions ".mp4", ".webm", ".ogg"; a video name has at least four characters. |
| `Dashboard.IsVideoExamples` | src/components/Dashboard.jsx:211 | "clip.MP4" is a video; "photo.png" and "doc" are images. |
| `Dashboard.Gallery` | src/components/Dashboard.jsx:202-237 | The empty-state notice exactly when there are no items. Otherwise one card per item, in order: keyed by the item's id, with a public-URL key in the user's folder naming the item, the item's name as caption and alt text, and a video player exactly when the name is a video. |
| `Dashboard.StatusesAfterUpload` | src/components/Dashboard.jsx:59-72 | Every status written after the store call is terminal. For a reply, success is written exactly when data came back and the upload error exactly when an error came back, one write each and the error last; nothing is written when neither came back. A throw writes only the unexpected error. |
| `Dashboard.StatusAfterUpload` | src/components/Dashboard.jsx:52-73 | The status left on screen after an upload is still "uploading" exactly when the reply carried neither data nor error. |
| `Dashboard.StatusAfterUploadCases` | src/components/Dashboard.jsx:52-73 | The final status is success only for data without error, the upload error whenever an error came back, the unexpected error exactly on a throw, and uploading when the reply had neither. |
| `Dashboard.ShownOutcomeHasPendingReset` | src/components/Dashboard.jsx:59-72 | Whenever a success or error status is showing, a reset that will clear it is still pending. |
| `Dashboard.Relisted` | src/components/Dashboard.jsx:82-84 | The list is replaced by the store's array (an empty array too), and kept on a null result or a throw. |
| `Dashboard.HandleDeleteAccount` | src/components/Dashboard.jsx:36-46 | Nothing happens unless confirmed. Then navigation to "/" happens exactly when the deletion succeeded, and a failure alerts the translated error. |
| `Dashboard.DashboardState.constructor` | src/components/Dashboard.jsx:9-12 | The component starts with an empty user id, no items, no status and an empty password input. |
| `Dashboard.DashboardState.Finish` | src/components/Dashboard.jsx:61-62 | A terminal status is shown and one 3000 ms reset is scheduled. |
| `Dashboard.DashboardState.FireReset` | src/components/Dashboard.jsx:62 | The oldest pending reset clears the status to null. |
| `Dashboard.DashboardState.GetMedias` | src/components/Dashboard.jsx:76-88 | The folder `userId + "/"` is listed and the list becomes `Relisted` of the old one; nothing else changes. |
| `Dashboard.DashboardState.OnUserFetched` | src/components/Dashboard.jsx:100-114 | A returned user's id is stored; a listing is started exactly when the id changed to a non-empty value. |
| `Dashboard.DashboardState.StartUpload` | src/components/Dashboard.jsx:52-57 | The status becomes uploading before the store call, which is issued under `userId + "/" + id`. |
| `Dashboard.DashboardState.SetUploadStatus` | src/components/Dashboard.jsx:11 | `setUploadStatus`: the shown status becomes the given one and the write is appended to the write log; no other field changes. |
| `Dashboard.DashboardState.SettleUpload` | src/components/Dashboard.jsx:59-73 | Writes exactly `StatusesAfterUpload(reply)` with one reset scheduled per write, and re-lists the whole folder exactly when data came back. |
| `Dashboard.DashboardState.UploadFile` | src/components/Dashboard.jsx:48-74 | Without a file nothing changes. With one: uploading is written first, then the terminal statuses. The key is `userId + "/" + id`, one reset is scheduled per terminal status, and a successful reply triggers a full re-list rather than an insert. |
| `Dashboard.DashboardState.SetNewPassword` | src/components/Dashboard.jsx:253 | The input's text becomes the pending password; nothing else changes. |
| `Dashboard.DashboardState.HandlePasswordUpdate` | src/components/Dashboard.jsx:25-34 | An empty input does nothing. Otherwise success alerts and clears the input, and failure alerts the translated error and keeps the input. |

`Dashboard.DashboardState.Valid` is the controller's invariant. The status
shown is the last one written. Every pending timer is a 3000 ms reset. The
pending resets plus the resets already fired equal the terminal statuses
written, and at no point have more resets fired than were scheduled.

## Findings

| source | as written | input that shows it | evidently intended | confidence | as-written member | corrected member |
|---|---|---|---|---|---|---|
| src/context/AuthContext.jsx:47-49 | The `catch` block passes the thrown value to `translateError`, which calls `.includes` on its `message`. | The sign-in call throws a value with no string `message` (a thrown string, `null`, or a plain object). `translateError` then throws a TypeError and the promise rejects. | Every outcome of sign-in becomes `{success: false, error: {message}}`; nothing escapes. | low, not executed: the auth library normally throws `Error` objects, which do carry a message | `AuthContext.SignInUserAsWritten` (with `AuthContext.SignInUserEscapes`) | `AuthContext.SignInUser` |

## Left out

- Identity-service and object-store calls (`supabase.auth.*`, `supabase.storage.*`, `supabase.rpc`) are foreign library code. Their outcomes are parameters: replies, thrown values, and list or upload results.
- `signUpNewUser`, `updateUserPassword` and `deleteUserAccount` have no `catch`. The model takes only their returned replies, and a throwing call, which would reject the promise, is not modelled for them.
- AuthContext.SignOut: the source reads `error` off an un-awaited promise, so in practice it is always absent. The model states only the wrapping shape and claims nothing about when sign-out fails.
- Errors returned by the identity service (`ProviderError`) are taken to carry a string `message`; only thrown values may lack one.
- `uuidv4()` is not modelled: the id is a parameter, and key uniqueness is not something the code guarantees.
- `setTimeout` timing is a queue of pending 3000 ms resets consumed by `FireReset`. No clock is modelled.
- Interleaving of asynchronous work is not modelled. Each handler runs to completion with its outcomes given. Overlapping uploads, and list replies that arrive out of order, are not modelled.
- React closures that hold a stale `userId` are not modelled; handlers read the current state.
- The public URL itself comes from the store and is not modelled. Only the key it is requested for is kept.
- `getUser` (src/components/Dashboard.jsx:16-23) is never called and is not modelled. `fetchUser` throwing (no `catch`) is not modelled either.
- `handleSignOut` (src/components/Dashboard.jsx:90-98) only awaits sign-out and navigates to "/signin", so it is not modelled.
- JSX markup, styling, `console` logging, `alert` and `window.confirm` are not modelled. Alerts, confirmation and navigation targets appear only as input or output values.
- Session contents are an opaque type parameter. Only their presence matters to the logic.
- JavaScript strings are UTF-16 code units and Dafny strings are code points. All patterns here are ASCII, so substring and suffix tests agree.
- src/r2Client.js (configuration and S3 client construction) and src/router.jsx (a static table whose `/dashboard` and `/settings` entries are wrapped in the guard) are not modelled.
- src/components/Signin.jsx, src/components/Signup.jsx and src/components/Settings.jsx are not modelled. They only forward auth results to error strings or navigation, and Settings duplicates the dashboard's password and deletion handlers.
