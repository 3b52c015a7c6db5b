# Sample app sessions: a Dafny model

This project models the login core of a Rails tutorial application:

- the `User` model: its validations, the downcasing of the email before every save, and the remember-me digest lifecycle (`remember`, `forget`, `authenticated?`);
- `SessionsHelper`: `log_in`, `remember`, `current_user`, `current_user?`, `logged_in?`, `forget`, `log_out`, `store_location` and `redirect_back_or`. These work over the request's session hash, its cookie jar, the user table and the memoised `@current_user`;
- `SessionsController`: `create`, which logs in from the login form, and `destroy`, which logs out.

Layout:

- `wrappers.dfy` holds `Option` and `Result`.
- `strings.dfy` holds ASCII downcasing, ActiveSupport's `blank?` and first/last index search.
- `digests.dfy` holds the digest scheme. A `DigestScheme` is a pair of functions, `digest` and `verify`. It is `Sound` when every string verifies against its own digest. bcrypt is one such scheme.
- `email_format.dfy` holds the email regex. `MatchesPattern` reads the regex term by term. `IsValidEmail` is an executable recogniser, and a lemma proves it equal to the regex.
- `user.dfy` holds the `User` class, the table `map<int, User>` with its invariant, the validations and `save`.
- `sessions_helper.dfy` holds the `RequestContext` class. Its fields are the session, the cookies, the users and the memo. The helper methods are methods of this class.
- `sessions_controller.dfy` holds the two actions.

The table maps each id to one shared `User` object. This is a modelling choice. Active Record builds a new object on every `find_by`, but the modelled flows cannot tell the difference: every write they make (`update_attribute`) goes straight to the row, and each action reads a row at most once. `RequestContext.Valid()` is the invariant every helper and action keeps. The digest scheme is sound. Rows sit under their own id. Stored emails are lower case and unique ignoring case. Session and cookie values have the right types. A memoised user is a stored row.

## Model

| member | source | states |
|---|---|---|
| Strings.Downcase | app/models/user.rb:5 | the downcased email is all lower case and equals the original ignoring case |
| Strings.DowncaseUnique | app/models/user.rb:5 | a lower-case string equal to `s` ignoring case is exactly `Downcase(s)` |
| Strings.DowncaseIdempotent | app/models/user.rb:5 | downcasing a stored (lower-case) email again leaves it unchanged, so repeated saves do not alter it |
| Strings.SameDowncaseIffCaseVariants | app/models/user.rb:10 | two emails downcase to the same string exactly when they differ only in case, so comparing downcased emails is a case-insensitive comparison |
| Strings.CaseVariantsDowncaseAlike | app/models/user.rb:10 | emails equal ignoring case downcase to the same string, which is what case-insensitive uniqueness compares |
| Strings.Blank | app/models/user.rb:6-12 | the `presence:` test: a string is blank exactly when every character is white space, the empty string included |
| EmailFormat.LabelsOkMatchesRun | app/models/user.rb:7 | the executable label check holds exactly when the string is one or more `[a-z\d\-]+` labels joined by dots |
| EmailFormat.DomainOkMatchesPattern | app/models/user.rb:7 | the executable domain check holds exactly when the domain matches `[a-z\d\-]+(\.[a-z\d\-]+)*\.[a-z]+` |
| EmailFormat.SplitAtLastDot | app/models/user.rb:7 | splitting a domain at its last dot matches `[a-z\d\-]+(\.[a-z\d\-]+)*\.[a-z]+` exactly when the part before is a run of labels and the part after is letters only |
| EmailFormat.SplitAtFirstAt | app/models/user.rb:7 | splitting at the first `@` matches the regex exactly when the local part is `[\w+\-.]+` and the rest is a domain |
| EmailFormat.FormatMatchesPattern | app/models/user.rb:7 | the executable email check accepts exactly the strings the whole anchored, case-insensitive regex matches |
| Users.IsValid | app/models/user.rb:6-12 | a record is valid iff every rule holds (`RulesHold`, with the regex itself as the format rule): name present and at most 50 chars; email present, at most 255 chars, matching the regex and not taken ignoring case; password, when set, present and at least 6 chars |
| Users.EmailTakenIn | app/models/user.rb:10 | the email counts as taken exactly when another row's email equals it ignoring case |
| Users.Errors | app/models/user.rb:6-12 | the collected errors are exactly the failing rules, each once and in declaration order; a nil password adds no password error (`allow_nil`) |
| Users.NoErrorsIffRulesHold | app/models/user.rb:6-12 | no error is collected exactly when every rule holds, the format rule read by the executable email check; `IsValid` then swaps that check for the regex |
| Users.Save | app/models/user.rb:5-10 | a save succeeds exactly when the record is valid; then the email is downcased and the row written; otherwise nothing changes; the table invariant (lower-case, case-insensitively unique emails) is preserved |
| Users.FindByEmail | app/controllers/sessions_controller.rb:15 | returns a row holding exactly that email, or nil when no row does; under the table invariant that row is the only one and is stored under its id |
| Users.FindById | app/helpers/sessions_helper.rb:32-34 | `find_by(id:)` returns nil exactly when no row has that id; otherwise it returns the stored row, whose id is the one asked for |
| Users.User.constructor | app/models/user.rb:11 | assigning a non-empty password stores it and its digest; the setter ignores an empty one, leaving password and digest nil; a new record has no remember token or digest |
| Users.User.Authenticate | app/models/user.rb:11 | never authenticates a record with no password digest; under a sound scheme, the password whose digest is stored authenticates |
| Users.User.Remember | app/models/user.rb:33-36 | keeps the fresh token, stores its digest, re-downcases the email through the save callback; afterwards the token authenticates |
| Users.User.Authenticated | app/models/user.rb:41-44 | false when there is no remember digest; true for the token whose digest is stored |
| Users.User.Forget | app/models/user.rb:47-49 | clears the remember digest, after which no token authenticates under any scheme |
| SessionsHelper.RequestContext.CallAuthenticated | app/models/user.rb:41 | calling `authenticated?` with any number of arguments other than one raises ArgumentError(given, 1) |
| SessionsHelper.RequestContext.constructor | app/helpers/sessions_helper.rb:30-40 | a request starts with the browser's session and cookies and no memoised user |
| SessionsHelper.RequestContext.LogIn | app/helpers/sessions_helper.rb:5-7 | the session gains the user's id and nothing else changes |
| SessionsHelper.RequestContext.Remember | app/helpers/sessions_helper.rb:12-16 | stores the token's digest on the user and puts the user's id and the token in cookies; the stored email is unchanged and the two cookies now authenticate the user |
| SessionsHelper.RequestContext.Resolve | app/helpers/sessions_helper.rb:30-40 | who `current_user` is: the memo or the session's row when the session holds an id; otherwise the cookie's user only if its remember token verifies; otherwise nil; the result is always a stored row |
| SessionsHelper.RequestContext.CurrentUser | app/helpers/sessions_helper.rb:30-40 | returns `Resolve()`; a cookie login writes the id into the session and memoises the user; nothing else changes, and a second call returns the same user |
| SessionsHelper.RequestContext.ResolveAsWritten | app/helpers/sessions_helper.rb:30-40 | `current_user` with the two-argument call of line 35; agrees with `Resolve()` whenever the cookie branch is not taken |
| SessionsHelper.RequestContext.RememberedVisitRaisesAsWritten | app/helpers/sessions_helper.rb:35 | a returning visitor (no session id, cookie naming an existing user) makes the as-written `current_user` raise ArgumentError(2, 1), while the corrected lookup logs them in when the token verifies |
| SessionsHelper.RequestContext.IsCurrentUser | app/helpers/sessions_helper.rb:19-21 | true exactly when the current user has the given user's id, or both are nil |
| SessionsHelper.RequestContext.LoggedIn | app/helpers/sessions_helper.rb:42-44 | true exactly when `current_user` is non-nil, with the same state effects as `current_user` |
| SessionsHelper.RequestContext.Forget | app/helpers/sessions_helper.rb:48-52 | clears the user's remember digest and deletes both remember cookies; the session is untouched |
| SessionsHelper.RequestContext.LogOut | app/helpers/sessions_helper.rb:56-60 | with nobody logged in it raises NoMethodError before changing anything; otherwise it drops the session id, the memo, both cookies and that user's digest, and leaves every other row alone; afterwards nobody is logged in |
| SessionsHelper.ForwardTarget | app/helpers/sessions_helper.rb:63 | the saved forwarding URL if there is one, else the default |
| SessionsHelper.RequestContext.RedirectBackOr | app/helpers/sessions_helper.rb:62-65 | redirects to the saved URL or the default, and always clears the saved URL, so the next redirect falls back to its default |
| SessionsHelper.RequestContext.StoreLocation | app/helpers/sessions_helper.rb:67-69 | on a GET the URL replaces any saved one; other requests leave the session as it was |
| SessionsController.AcceptsIgnoresEmailCase | app/controllers/sessions_controller.rb:15-16 | two logins whose emails differ only in case are accepted or refused alike |
| SessionsController.AnyCasingFindsStoredEmail | app/controllers/sessions_controller.rb:15 | any casing of a stored email downcases to that stored email, so the lookup reaches its row |
| SessionsController.Create | app/controllers/sessions_controller.rb:14-24 | a post without an email field raises NoMethodError for `downcase` with nothing changed; otherwise, if some row holds the downcased email and the password verifies: log that user in, remember them (token kept, digest stored, both cookies set) or forget them (token untouched, digest and cookies cleared), and redirect to their page; otherwise render `new` with the danger flash and change nothing |
| SessionsController.RememberOrForget | app/controllers/sessions_controller.rb:18 | "remember me" exactly "1" leaves the user remembered (the token kept, its digest stored) with both cookies set; any other value or none clears the digest and both cookies |
| SessionsController.Destroy | app/controllers/sessions_controller.rb:29-32 | always redirects to the root URL; logged out afterwards; when nobody was logged in nothing changes, and otherwise only the logged-out user's digest, session id and cookies go |

## Left out

- Users.User.Authenticated and Users.User.Authenticate: bcrypt is a `DigestScheme` parameter. The model keeps only its soundness: a string verifies against its own digest. Salts, cost factors (`User.digest`, user.rb:16-20) and collision resistance are not modelled, so the contracts say that the right secret is accepted, not that wrong ones are refused.
- `User.new_token` (user.rb:24-26) draws from SecureRandom. The token is a parameter of `Remember`, `Create` and `RememberOrForget`.
- Users.IsValid: the digest-presence validation that `has_secure_password` (user.rb:11) adds is outside the iff, so a record whose password was never set or was empty, and so has no digest, can be valid in the model while Rails rejects it on create.
- `has_secure_password` (user.rb:11) beyond its setter (a non-empty password is stored with its digest, an empty one is ignored) and `authenticate`. Its own presence and confirmation validations and its 72-byte limit are not modelled. With no digest the model's `authenticate` is false; older Rails versions raise `BCrypt::Errors::InvalidHash` there instead.
- Cookie signing and encryption, `permanent` expiry and cookie deletion attributes. The jar is a plain map. A signed id is trusted as given.
- Rendering, flash lifetime and HTTP redirects are values of `Response`. The `new` action (sessions_controller.rb:2-3) only renders a form and is not modelled.
- Persistence: `update_attribute` skips validations and saves through the callbacks. The model applies the `before_save` downcase and leaves the rest of the write implicit. Database races and transactions are not modelled, and neither is the fresh object each `find_by` builds (see the shared-object note above).
- Downcasing is ASCII only (A–Z). Ruby's `downcase` also maps non-ASCII letters, and the regex's `\w` and `/i` are treated as ASCII.
- SessionsHelper.RequestContext.Remember and SessionsHelper.RequestContext.Forget require the user to be a stored row. Every caller passes a row it found.
- sessions_helper.rb:35 calls a two-argument `authenticated?(:remember, token)`. user.rb:41 defines the one-argument form, and the model follows user.rb. See Findings.
- SessionsController.Create takes the password as a string. A post without a password field passes nil to `authenticate`, and bcrypt hashes nil as `nil.to_s`, the empty string, so passing "" stands for it. A post without the `session` parameter group fails one step earlier, calling `[]` on nil; the model does not distinguish that case from a missing email.
- Concurrency between requests is not modelled. Each `RequestContext` is one request.

## Findings

| source | as written | input that shows it | evidently intended | confidence | as-written member | corrected member |
|---|---|---|---|---|---|---|
| app/helpers/sessions_helper.rb:35 | `current_user` calls `user.authenticated?(:remember, cookies[:remember_token])` with two arguments, but app/models/user.rb:41 defines `authenticated?(remember_token)` with one | a request with no `:user_id` in the session, whose signed `:user_id` cookie names an existing user: Ruby raises ArgumentError (given 2, expected 1) | call `authenticated?(cookies[:remember_token])`, logging the user in when the token verifies against the stored digest | high, not executed | SessionsHelper.RequestContext.ResolveAsWritten | SessionsHelper.RequestContext.CurrentUser |
