# Local bank: auth store, admin panel, sign-up forms and route guard

This project models the "local bank" layer of a demo online-banking web
application. The layer keeps its data in browser storage:

- `bankUsers` is the list of stored users.
- `tempRegistration` is the registration waiting for its one-time password (OTP).
- `bankUser` is the signed-in session.

Here these three keys are fields of one immutable `AuthState` record.
Each operation is a pure function from a state to a new state.

The model has five modules plus shared helpers:

- `AuthStore` (`auth_store.dfy`) is the auth provider.
  - `Register` creates a pending registration. It assigns the role, the
    starting balance, a 6-digit OTP, a 10-digit account number and an expiry
    10 minutes ahead.
  - `VerifyOtp` checks the email, then the code, then the expiry, and turns the
    pending record into a verified stored user.
  - `Login` signs in the first user whose email and password both match, if
    that user is verified.
  - `UpdateBalance` sets the balance of the session user and of every stored
    user with the session's id.
  - `Logout` ends the session.
- `AdminPanel` (`admin_panel.dfy`) is the admin panel's user management:
  suspend, activate, delete, balance adjustment clamped at zero, the search
  filter, and the statistics.
- `AuthPage` (`auth_page.dfy`) holds the SSN field's `XXX-XX-XXXX` formatter
  and the checks the sign-in and sign-up submit handlers run before calling the store.
- `Router` (`router.dfy`) is the route table. It decides between rendering a
  page and redirecting, based on the path, the session and the loading flag.
- `Bank` (`bank.dfy`) puts every store operation and admin action into one
  event type. It proves that stored emails stay unique, and that a pending
  registration's email stays unused, across any sequence of events. It also
  proves that sign-up, verification and sign-in compose as a round trip.
- `Text`, `Seqs`, `Records` and `Wrappers` hold the shared helpers:
  - digit stripping, ASCII lower-casing, substring search and decimal rendering;
  - order-preserving filtering and sums;
  - the record types and the "update matching records" map;
  - `Option` and `Outcome`.

Balances are whole cents. The clock (`Date.now()`), the random draws behind
the OTP and the account number, and the ISO creation timestamp are parameters
of the operations that use them. A stored user's id is the decimal rendering
of the clock reading, as `Date.now().toString()` produces.

The sign-up page in `src/components/AuthPage.tsx` calls `register` and
`login` only. None of the application's components shown here calls
`verifyOTP`. The model still offers verification as the store defines it, and
the `Bank` event type includes it.

## Model

| member | source | states |
|---|---|---|
| `AuthStore.Initial` | src/hooks/useAuth.tsx:38-39 | the provider starts with loading set, holding whatever users, pending registration and saved session storage already contains |
| `AuthStore.Mount` | src/hooks/useAuth.tsx:41-48 | mounting ends loading and keeps the stored users, pending registration and saved session |
| `AuthStore.Register` | src/hooks/useAuth.tsx:65-96 | rejects exactly when a stored user has the email, leaving the state unchanged; otherwise the new pending record holds the form data, has role admin exactly for `admin@usbank.com` with $100,000 (else user with $1,000), savings 0, unverified, expiry now + 600000 ms, and the OTP and account number are the decimal renderings of the two draws, hence 6 and 10 digits long; users and session are unchanged |
| `AuthStore.VerifyOtp` | src/hooks/useAuth.tsx:98-142 | succeeds exactly when a pending registration exists with the given email and code and `now <= expiry`; reports an email mismatch when nothing is pending or the email differs, and a bad code only when the email matches; any rejection leaves the state unchanged; success appends exactly one verified user carrying the pending email, password, name, phone number, address, date of birth, SSN, account number, role, balance and savings, the clock reading as id and the given creation time, keeps earlier users in order, clears the pending registration and keeps the session |
| `AuthStore.Promote` | src/hooks/useAuth.tsx:116-131 | the stored record is verified, its id is the decimal rendering of the clock reading and its `createdAt` the given timestamp, and it copies every pending field: email, password, name, phone, address, date of birth, SSN, account number, role, balance and savings |
| `AuthStore.FindCredentials` | src/hooks/useAuth.tsx:147 | returns the first position whose user matches both email and password, or none when no user matches |
| `AuthStore.Login` | src/hooks/useAuth.tsx:144-175 | succeeds exactly when the first user matching email and password exists and is verified; invalid credentials exactly when no user matches; failures leave the state unchanged; success sets the session to that user's id, email, name, account number, role, balance and savings and leaves users and pending unchanged |
| `AuthStore.UpdateBalance` | src/hooks/useAuth.tsx:177-190 | without a session nothing changes; with one, the session's balance and the balance of every stored user with the session's id become the new balance, and no other record or field changes |
| `AuthStore.Logout` | src/hooks/useAuth.tsx:192-199 | afterwards no one is authenticated, and users and pending registration are unchanged |
| `AuthStore.ExpiryBoundary` | src/hooks/useAuth.tsx:110-112 | verifying exactly at the expiry instant is accepted and one millisecond later is rejected as expired with no change |
| `AuthStore.RegisteredCodeWindow` | src/hooks/useAuth.tsx:84-112 | after registering a fresh email, its code verifies at time `t` exactly when `t <= now + 600000` |
| `AuthStore.LogoutIdempotent` | src/hooks/useAuth.tsx:192-195 | logging out twice equals logging out once, and logging out changes an authenticated state |
| `Text.Digits` | src/components/AuthPage.tsx:281 | the stripped string holds only digits and is no longer than the input |
| `Text.DigitsOfDigits` | src/components/AuthPage.tsx:281 | stripping an all-digit string returns it unchanged |
| `Text.DigitsOfChar` | src/components/AuthPage.tsx:281 | a single digit is kept and any other single character is removed; with `DigitsAppend` this fixes the stripped string of every input |
| `Text.DigitsAppend` | src/components/AuthPage.tsx:281 | stripping distributes over concatenation |
| `Text.AsciiLower` | src/components/AdminPanel.tsx:134-135 | lower-casing keeps the length and lower-cases each character in place |
| `Text.ContainsIffOccurs` | src/components/AdminPanel.tsx:134-136 | the substring search succeeds exactly when the needle occurs at some offset |
| `Text.ContainsEmpty` | src/components/AdminPanel.tsx:134-136 | the empty query occurs in every string |
| `Text.Decimal` | src/hooks/useAuth.tsx:50-56 | the rendering of a number is non-empty and all digits |
| `Text.DecimalRoundTrip` | src/hooks/useAuth.tsx:50-56 | reading back the rendering of `n` gives `n` |
| `Text.DecimalInjective` | src/hooks/useAuth.tsx:117 | distinct clock readings give distinct user ids |
| `Text.DecimalWidth` | src/hooks/useAuth.tsx:50-56 | a number in `[10^(k-1), 10^k)` renders as exactly `k` characters |
| `Seqs.Filter` | src/components/AdminPanel.tsx:133-137 | the result is no longer than the input, all its elements come from the input and satisfy the predicate, and every satisfying input element is kept |
| `Seqs.FilterSelects` | src/components/AdminPanel.tsx:104 | the result is the input taken at strictly increasing positions, and those positions are exactly the satisfying ones |
| `Seqs.FilterAll` | src/components/AdminPanel.tsx:104 | a predicate true everywhere keeps the whole sequence |
| `Seqs.Sum` | src/components/AdminPanel.tsx:72-73 | the sum of an empty list is 0 and of a one-element list is that element's weight; with `Seqs.SumAppend` this fixes every sum |
| `Seqs.SumAppend` | src/components/AdminPanel.tsx:72-73 | the sum over a concatenation is the sum of the two sums |
| `Seqs.FilterCountsPositions` | src/components/AdminPanel.tsx:87 | the filter's length is the number of positions whose element satisfies the predicate |
| `Seqs.SumSplit` | src/components/AdminPanel.tsx:72-73 | splitting a list by a predicate splits its sum |
| `Seqs.SumNonNegative` | src/components/AdminPanel.tsx:72-73 | a sum of non-negative weights is non-negative |
| `Records.UpdateWhere` | src/components/AdminPanel.tsx:118-120 | records with the id are transformed, all others are kept, at the same positions and with the same length |
| `AdminPanel.HandleUserAction` | src/components/AdminPanel.tsx:91-104 | suspend and activate set `verified` to false or true on records with the id and keep every other record and field, length and order; delete leaves no record with the id, keeps every other record, and yields a subsequence of the input |
| `AdminPanel.DeleteKeepsOthersInOrder` | src/components/AdminPanel.tsx:104 | the list after a delete is the input taken at increasing positions, and those positions are exactly the records without the id |
| `AdminPanel.AdjustUserBalance` | src/components/AdminPanel.tsx:117-120 | records with the id get balance `max(0, newBalance)`, which is non-negative and at least `newBalance`, with every other field unchanged; all other records are unchanged |
| `AdminPanel.AdjustKeepsBalancesNonNegative` | src/components/AdminPanel.tsx:119 | if no balance was negative, none is after an adjustment |
| `AdminPanel.FilteredUsers` | src/components/AdminPanel.tsx:133-137 | the kept users all match the query, every matching user is kept, the result is a subsequence of the list, and an empty query keeps everyone |
| `AdminPanel.SearchKeepsExactly` | src/components/AdminPanel.tsx:133-137 | the search keeps, in order, exactly the users where the lower-cased query occurs in the lower-cased name or email, or the raw query occurs in the account number |
| `AdminPanel.LoadStats` | src/components/AdminPanel.tsx:66-88 | total users is the list length; active users is the number of positions holding a verified user, never above the total and equal to it exactly when every user is verified; the balance, savings and transaction totals are the sums of each user's balance, savings and transaction-list length (0 for a missing list); the transaction total is non-negative, and so is the balance total when every balance is |
| `AdminPanel.StatsFacts` | src/components/AdminPanel.tsx:72-87 | the verified count equals the list length exactly when all users are verified, and the summed ledger lengths are non-negative |
| `AdminPanel.ShorterWhenSomeDropped` | src/components/AdminPanel.tsx:87 | one unverified user makes the active count smaller than the user count |
| `AdminPanel.StatusChangeKeepsTotals` | src/components/AdminPanel.tsx:72-88 | suspending or activating leaves the user count, balance, savings and transaction totals unchanged |
| `AdminPanel.DeleteSubtractsTotals` | src/components/AdminPanel.tsx:72-88 | deleting lowers the user count, balance, savings and transaction totals by exactly the deleted records' count and sums |
| `AuthPage.FormatSsn` | src/components/AuthPage.tsx:280-284 | the formatter, written as the source's strip-and-substring steps, equals the `DDD-DD-DDDD` layout of the input's first nine digits |
| `AuthPage.LayoutDigits` | src/components/AuthPage.tsx:282-283 | the layout adds only dashes to the digits it lays out |
| `AuthPage.SsnKeepsLeadingDigits` | src/components/AuthPage.tsx:281-283 | the output's digits are exactly the input's first `min(n, 9)` digits, in order |
| `AuthPage.SsnDashPositions` | src/components/AuthPage.tsx:282-283 | dashes are the only non-digits, only at positions 3 and 6; position 3 holds a dash exactly when the input has at least 3 digits, position 6 exactly when it has at least 5 |
| `AuthPage.SsnLength` | src/components/AuthPage.tsx:277-284 | the output length is the kept digit count plus one per dash, never more than 11 |
| `AuthPage.SsnFullShape` | src/components/AuthPage.tsx:280-284 | with nine or more digits the output is `DDD-DD-DDDD` |
| `AuthPage.SsnIdempotent` | src/components/AuthPage.tsx:280-284 | formatting a formatted value leaves it unchanged |
| `AuthPage.HandleLogin` | src/components/AuthPage.tsx:47-59 | the submit handler stops exactly when the email or the password is empty; otherwise it calls `login` with the form's values |
| `AuthPage.HandleRegister` | src/components/AuthPage.tsx:65-86 | the submit handler stops on a password mismatch exactly when the passwords differ, whatever the SSN; it stops for a missing SSN exactly when they agree, the country is `US` and the SSN is empty; otherwise it calls `register` with the form's data |
| `AuthPage.NonUsSsnNeverBlocks` | src/components/AuthPage.tsx:77-84 | outside the US, changing the SSN never changes whether the submit handler calls the store, and the handler calls it exactly when the passwords agree |
| `Router.Resolve` | src/pages/Index.tsx:16-48 | loading always yields only the spinner; the dashboard is rendered only with a session; the admin panel is rendered exactly on `/admin` for a signed-in administrator when not loading; every redirect targets a known route |
| `Router.Navigate` | src/pages/Index.tsx:24-48 | following redirects yields the spinner exactly while loading, and ends on the admin panel only for an administrator and on the dashboard only with a session |
| `Router.GuestsSeeNoPrivatePage` | src/pages/Index.tsx:32-47 | without a session neither the dashboard nor the admin panel is rendered; `/dashboard` redirects to `/auth` and `/admin` to `/dashboard` |
| `Router.PublicPagesRedirectSignedIn` | src/pages/Index.tsx:24-31 | `/` and `/auth` redirect a signed-in user to `/dashboard` and render the landing and auth pages for a guest |
| `Router.NonAdminsBounceToDashboard` | src/pages/Index.tsx:40-47 | a signed-in non-admin asking for `/admin` is redirected to `/dashboard` |
| `Router.UnknownPathsGoHome` | src/pages/Index.tsx:48 | every other path redirects to `/` |
| `Router.RedirectsSettleWithinTwo` | src/pages/Index.tsx:16-48 | from any path, for any session and loading flag, two redirects reach a rendered page: the spinner while loading, the landing or auth page for a guest, and the dashboard or (on `/admin` for an admin) the admin panel for a signed-in user |
| `Router.OneRedirectIsNotEnough` | src/pages/Index.tsx:32-47 | a guest asking for `/admin` is still redirecting after one hop |
| `Bank.Step` | src/components/AdminPanel.tsx:146-160 | admin actions change nothing unless the signed-in user is an administrator |
| `Bank.SpinnerUntilMounted` | src/pages/Index.tsx:16-26 | before the mount effect every path shows only the spinner; after it no path does, and a saved session never sees the landing page |
| `Bank.EmptyStoreValid` | src/hooks/useAuth.tsx:68 | a store with no users satisfies the invariant, whatever registration is pending |
| `Bank.StepPreservesValid` | src/hooks/useAuth.tsx:67-73 | every store operation and admin action keeps stored emails unique and the pending registration's email unused |
| `Bank.RunPreservesValid` | src/hooks/useAuth.tsx:67-73 | every sequence of events keeps the invariant |
| `Bank.LoginInValidStore` | src/hooks/useAuth.tsx:146-155 | with unique emails, sign-in succeeds exactly when some verified user has the given email and password |
| `Bank.SignUpThenSignIn` | src/hooks/useAuth.tsx:65-168 | for any stored list, registering an email it does not hold, entering its code before expiry and signing in with the same password opens a session with that email, the verification time as id, admin role exactly for `admin@usbank.com`, the matching starting balance and zero savings |

## Left out

- Browser storage and JSON. `localStorage` reads and writes and `JSON.parse` / `stringify` are not modelled. The three storage keys are fields of `AuthState`. Malformed stored JSON is not modelled. `register`, `verifyOTP` and `login` would catch the parse error and report a failure (src/hooks/useAuth.tsx:66, 99, 145). The mount effect (src/hooks/useAuth.tsx:45), `updateBalance` (src/hooks/useAuth.tsx:184) and the admin panel's `loadSystemData` (src/components/AdminPanel.tsx:68, 78) have no `try`, so there the parse error would be thrown.
- Before mounting, the provider's React `user` is `null` while `bankUser` may already hold a session. The model keeps one `session` field. The router shows only the spinner while `loading` is set, so the difference is never visible.
- `AuthStore.VerifyOtp`: uses one clock reading `now` for both the expiry check and the new user's id, whereas the source calls `Date.now()` twice, at src/hooks/useAuth.tsx:110 and :117. The two readings may differ by a millisecond or more. `Bank.SignUpThenSignIn`'s "verification time as id" therefore assumes the two readings are equal.
- Randomness and time. `Math.random`, `Date.now()` and `new Date().toISOString()` are parameters. The OTP and account-number draws are integers in `[100000, 1000000)` and `[1000000000, 10000000000)`. The floating-point `Math.floor` arithmetic that produces them is not modelled.
- Number representation. Balances are JavaScript floats in the source and whole cents here. Float rounding and `parseFloat` of the admin's prompt are not modelled.
- `Text.AsciiLower`: does not model Unicode case folding, because `toLowerCase` lower-cases non-ASCII letters too and the model lower-cases only `A`–`Z`.
- Router path matching. The model classifies a path by exact string equality. The router library also matches paths case-insensitively and ignores trailing slashes; that is not modelled.
- Browser form validation. The inputs carry `required`, `type="email"` and, on the SSN field, `maxLength` (src/components/AuthPage.tsx:132-315). The browser checks these before it fires the submit event, so a malformed email or an empty required field never reaches `handleLogin` or `handleRegister`. The model starts at the handlers and does not model these browser checks. Its statements about `HandleLogin`, `HandleRegister` and `NonUsSsnNeverBlocks` are about what the handlers do with the values they receive.
- UI side effects: toasts, `alert` and `console` output, `prompt` and `confirm`, `navigate`, all rendering and currency formatting. The OTP "email" is an `alert` and is not modelled.
- The admin panel keeps its own copy of the list, loaded from storage at mount and written back after each action. The model applies admin actions to the stored list directly.
- The dashboard (a hosted-database RPC fetch and display), the transfer-notification function (an HTTP handler and a database insert), the schema type declarations, the error boundary, the landing page, the spinner and the DOM bootstrap. None of them carries local-bank logic.
- Funds transfer, multi-currency balances and the two-sided ledger update do not occur in these files and are not modelled.
