# Verification model of a session and rate-limit server

A Dafny model of the two parts of the server that carry its promises, and proofs of those promises.

* **The in-memory rate limiter**: a token bucket per key in a bounded least-recently-used cache, filled by a
  get-then-peek-or-add protocol, with a throttled warning on evictions that lose spent tokens.
* **The account, session and reset-token store**: four tables with their constraints, one method per SQL statement,
  the user and session services with their transactions, the session middleware, and the HTTP handlers.

## How it is built

`token_bucket`, `lru`, `throttle` and `limiter` model the limiter; its class is proved against one pure step, and
`limiter_refinement`, `limiter_room`, `limiter_bounds` and `limiter_policy` prove things about runs of such steps;
`concurrent_limiter`, `limiter_alone`, `concurrent_bounds`, `concurrent_eviction`, `concurrent_harmless` and
`concurrent_sparse` are about interleavings of smaller ones. `login_bound` adds keys and policies.

`db` has the tables and the statements; `accounts` says in pure functions what every flow does to the tables, what it
mails and what it replies; `user_service`, `session_service`, `handlers` and `server` are the code, statement by
statement, proved against those functions: `Servers.Server.ServeHTTP` is `Evolution.Serve`. Runs (`runs.dfy`) are
sequences of `Serve` steps from empty tables, with an arbitrary request, an arbitrary set of failing calls and an
arbitrary answer of the limiter in every step, each recorded with what the server made of it (`Runs.Occurs`).
`account_laws` says of every flow in terms of its input alone when it succeeds, what it then does, and which refusal it
gives; `tokens`, `provenance`, `identities`, `session_life` and `sign_ins` are about runs, and `login_runs`, `guesses`
and `link_bound` join them with the limiter.

Two granularities are used, and each theorem about runs is about one of them:

* *handler-atomic*: one request is one step (`Runs` and the modules on top of it);
* *small steps*: one part of a limiter call (`ConcurrentLimiter` and the modules on top of it), one SQL statement
  (`SessionCap`), one statement or one transaction (`CredentialRaces`), one semaphore operation (`HashSlots`) is one step,
  and any number of requests interleave.

## Assumptions

* SHA-256 and argon2id are injective: a digest is modelled as what was hashed, and a hash verifies exactly its own
  password. Random ids do not repeat (`Runs.Fair`).
* There is one clock for application and database, and where a theorem says so it does not go back. Days have
  24 hours.
* `mail.ParseAddress` is a parameter; where canonical addresses matter it must not care about the case of a domain
  (`Emails.IgnoresDomainCase`). Decoding a base64 cookie or token is a parameter of the request.
* A statement is atomic, and so is a transaction; a failed commit is a rollback.
* A run in which no window as long as the longest Per sees more than `size` keys is called sparse; the theorems about
  the bounded sequential limiter assume it. The concurrent ones assume room for every key, harmless evictions, or sparse look-ups with prompt calls.

## Results about promises that do not hold as written

* `internal/service/ratelimit/ratelimit.go:28` promises at most Count occurrences within Per. A bucket starts full and
  refills meanwhile, so this holds on all runs if and only if Count is 1 (`CommentHoldsIffSingleToken`); the bound that
  does hold, and is exact, is Count + (b - a) / interval.
* `internal/service/session/service.go:46` names a maximum of 10 sessions. It is kept in all interleavings if and only
  if a user's log-ins come one at a time (`CapHoldsIffOneAtATime`); the exact bound for k at a time is 9 + k.
* `internal/service/ratelimit/ratelimit.go:101` reads the clock before the bucket is locked. A call can be overtaken in
  between by one with a later reading, and its own earlier reading then turns the bucket's clock back, so that time is
  credited twice. The admission bound holds in all interleavings if and only if Count is 1 (`BoundHoldsIffSingleToken`),
  and for any policy when the draws on the key come in clock order (`ConcurrentAdmissionBound`).
* `internal/service/ratelimit/ratelimit.go:92` means to keep one bucket per key. That is so in all interleavings if and
  only if the cache has room for all keys, or no policy refuses anything (`LinearExactlyWithRoom`).
* A reset is meant to end every session of its user (`internal/service/user/service.go:335`). A log-in whose password
  was checked before the commit can insert its session after it. A stored session, or token, rests on credentials from
  before a change if and only if the change overtook it so (`StaleIffOvertaken`). A password change that was checked
  before a reset can commit after it and undo it (`ResetCanBeUndone`); it knows the present password if and only if no
  other was set since its look-up (`ChangeIsOnPresentPassword`).

## Model

| member | source | states |
|---|---|---|
| TokenBucket.TakeKeepsValid | internal/service/ratelimit/ratelimit.go:84-102 | A bucket never owes a token, never holds more than Count of them, keeps its policy, and takes the time of an admission |
| TokenBucket.IntervalIsExact | internal/service/ratelimit/ratelimit.go:90 | A token takes Per / Count to come back, exactly the nanosecond below it, and no time at all if Per is negative |
| TokenBucket.FullBucket | internal/service/ratelimit/ratelimit.go:90 | A new bucket is full at every time, holds at most Per of credit, and grants its first call |
| TokenBucket.RefillIsMonotone | internal/service/ratelimit/ratelimit.go:44-47 | Left alone, a bucket only fills; once full it stays full; it is full after at most its capacity of idling |
| LruCaches.TouchKeepsValid | internal/service/ratelimit/ratelimit.go:86 | A cache hit keeps keys distinct and entries as they were |
| LruCaches.AddKeepsValid | internal/service/ratelimit/ratelimit.go:94 | Adding a key evicts one key just when the cache is full, never the new one, and no other entry changes |
| Limiter.AllowStepKeepsValid | internal/service/ratelimit/ratelimit.go:84-102 | A call leaves at most `size` keys in the cache, the called key among them |
| Limiter.InMemoryLimiter.constructor | internal/service/ratelimit/ratelimit.go:40-65 | An empty cache of the given size, with the eviction warning throttled to 30 s |
| Limiter.InMemoryLimiter.Get | internal/service/ratelimit/ratelimit.go:86-88 | A hit moves the key to the front; a miss changes nothing |
| Limiter.InMemoryLimiter.PeekOrAdd | internal/service/ratelimit/ratelimit.go:92-99 | An existing bucket is kept and not reordered; otherwise the candidate goes in front and the least recent key may go |
| Limiter.InMemoryLimiter.OnEvict | internal/service/ratelimit/ratelimit.go:43-54 | The warning names the key just when its bucket had spent tokens and the throttle lets it run |
| Limiter.InMemoryLimiter.Allow | internal/service/ratelimit/ratelimit.go:84-102 | Get, peek-or-add and draw together has exactly the effect and the answer of one atomic step on the recency list, and warns just when a spent token is lost |
| Throttles.Throttle.Call | internal/service/ratelimit/ratelimit.go:67-82 | Runs the work unless the last run is less than `every` ago |
| Throttles.ThrottleSpacing | internal/service/ratelimit/ratelimit.go:67-82 | Any two runs of the throttled work are at least `every` apart, in any call sequence, however the clock moves |
| Throttles.RunsIffNoneIsRecent | internal/service/ratelimit/ratelimit.go:67-82 | A call runs the work if and only if every earlier run is at least `every` ago; so the first call does |
| Throttles.ThrottleBound | internal/service/ratelimit/ratelimit.go:67-82 | A window [a, b] holds at most 1 + (b - a) / every runs |
| Throttles.WarningsAreRare | internal/service/ratelimit/ratelimit.go:40-65 | In particular at most 1 + (b - a) / 30 s eviction warnings |
| LimiterRefinement.RefinesThroughout | internal/service/ratelimit/ratelimit.go:40-65 | Throughout a sparse run every bucket in the cache is the unbounded store's, every bucket left out is full, and the order is by last use |
| LimiterRefinement.BoundedEqualsUnbounded | internal/service/ratelimit/ratelimit.go:40-65 | If no window as long as the longest Per sees more than `size` keys, the bounded limiter answers every call of every run as one with an unbounded map would, and every evicted bucket is full |
| LimiterRefinement.FewKeysAreSparse | internal/service/ratelimit/ratelimit.go:40-65 | A run with at most `size` keys in all meets that condition |
| LimiterRefinement.NoLossMeansSameAnswers | internal/service/ratelimit/ratelimit.go:43-54 | Whatever the keys and the clock: a run in which the eviction hook finds no spent token lost gets all the answers of the unbounded limiter |
| LimiterRoom.SequentialExactlyWithRoom | internal/service/ratelimit/ratelimit.go:40-65 | For every n, size and policies: the bounded limiter answers all runs with at most n keys like the unbounded one if and only if n <= size or no policy ever refuses |
| LimiterBounds.GrantBound | internal/service/ratelimit/ratelimit.go:84-102 | The unbounded limiter grants a key at most Count + (b - a) / interval calls in [a, b] |
| LimiterBounds.AdmissionBound | internal/service/ratelimit/ratelimit.go:84-102 | So does the limiter as it runs: at most Count + (b - a) / (Per / Count) admissions of a key in any window of any sparse run |
| LimiterBounds.RefusalMeansSpent | internal/service/ratelimit/ratelimit.go:28-33 | A refused call means at least Count admissions of its key within the last Count * interval, hence within the last Per |
| LimiterBounds.FewRecentMeansGranted | internal/service/ratelimit/ratelimit.go:28-33 | A key with fewer than Count admissions within the last Per is never refused |
| LimiterBounds.IdleKeyHasFullBurst | internal/service/ratelimit/ratelimit.go:28-33 | After Per without an admission the next Count calls in a row are all admitted |
| LimiterPolicy.BoundIsReached | internal/service/ratelimit/ratelimit.go:84-102 | For every policy and every number m of intervals there is a run that admits Count + m calls: the bound is exact |
| LimiterPolicy.CommentHoldsIffSingleToken | internal/service/ratelimit/ratelimit.go:28-33 | The comment "at most Count occurrences of a key within Per" holds on all runs if and only if Count is 1, for any Per of at least a nanosecond |
| ConcurrentLimiter.StepKeepsInv | internal/service/ratelimit/ratelimit.go:84-102 | Every small step (enter, Get, PeekOrAdd, read the clock, AllowN, time passing) of any interleaving keeps the invariant between threads, cache, heap of buckets and linear history |
| ConcurrentLimiter.BucketsAreNeverReplaced | internal/service/ratelimit/ratelimit.go:92-99 | With room for every key, an installed bucket is never replaced, and every call on the key holds that one bucket |
| ConcurrentLimiter.ConcurrentCallsLinearise | internal/service/ratelimit/ratelimit.go:84-102 | With at most `size` keys, any interleaving, clock readings that are overtaken included, gives the answers of a sequential limiter that serves the calls in AllowN order |
| LimiterAlone.AloneIsAllowStep | internal/service/ratelimit/ratelimit.go:84-102 | The small steps of one call in a row are, for the cache, its buckets and the answer, the one step of the sequential limiter, from any state in which keys share no bucket |
| LimiterAlone.SeparateThroughout | internal/service/ratelimit/ratelimit.go:92-99 | And in no interleaving do two keys ever share one, whatever is evicted |
| ConcurrentEviction.LinearExactlyWithRoom | internal/service/ratelimit/ratelimit.go:92-99 | For every n, size and policies: all interleavings with at most n keys linearise if and only if n <= size or no policy ever refuses |
| ConcurrentEviction.SplitKey | internal/service/ratelimit/ratelimit.go:94 | For every size and every key, size + 1 keys suffice for an interleaving that grants Count + 1 draws of the key at one instant, from two buckets |
| ConcurrentHarmless.HarmlessEvictionsLinearise | internal/service/ratelimit/ratelimit.go:43-54 | However many keys there are: if every key pushed out is one that the eviction hook finds full and that no call is drawing from, concurrent calls linearise |
| ConcurrentHarmless.RoomMeansHarmless | internal/service/ratelimit/ratelimit.go:43-54 | With at most `size` keys that is always so |
| ConcurrentSparse.SparseMeansHarmless | internal/service/ratelimit/ratelimit.go:84-102 | And it is so if no call takes as long as d and no stretch of time shorter than the longest Per plus d sees more than `size` keys looked up |
| ConcurrentSparse.SparseCallsLinearise | internal/service/ratelimit/ratelimit.go:84-102 | So such concurrent calls linearise, however many keys there are in all |
| ConcurrentHarmless.HarmlessEvictionsKeepBound | internal/service/ratelimit/ratelimit.go:84-102 | So such calls keep the admission bound of a key whose draws come in clock order |
| ConcurrentBounds.ConcurrentAdmissionBound | internal/service/ratelimit/ratelimit.go:84-102 | Interleaved calls keep the admission bound of a key as long as the draws on it come in the order of their clock readings |
| ConcurrentBounds.OutOfOrderIsUnbounded | internal/service/ratelimit/ratelimit.go:101 | Without that order, for every n and every policy with Count >= 2, an interleaving with one key grants n draws within two intervals: the clock is read before AllowN locks |
| ConcurrentBounds.BoundHoldsIffSingleToken | internal/service/ratelimit/ratelimit.go:101 | The admission bound holds in every interleaving if and only if Count is 1 |
| LoginBound.KeyHasOnePolicy | internal/handlers/ratelimit.go:18-37 | Requests with equal keys come with equal policies, whichever handlers they went to |
| LoginBound.KeysAreExact | internal/handlers/ratelimit.go:27-43 | Two requests share a key if and only if they are for the same handler and come from the same user, or carry the same address up to case and padding |
| LoginBound.LimitsInNumbers | internal/handlers/ratelimit.go:18-23 | The four policies: 10 log-ins at once and one each 90 s, 5 password changes and one each 12 min, 3 requests of either kind and one each 20 min |
| LoginBound.SpellingsShareKey | internal/handlers/ratelimit.go:33-37 | Every spelling, case and padding that resolves to an account gives one limiter key, that of its folded address |
| LoginBound.LoginBoundPerAccount | internal/handlers/user.go:82-115 | LogIn runs against one account at most 10 + (b - a) / 90 s times in [a, b] for each address it has in the window, however that is typed, in a sparse run of the limiter |
| LoginBound.InterleavedLogInBound | internal/handlers/user.go:89-91 | Interleaved calls of Allow let through at most 10 + (b - a) / 90 s log-ins to one address, if evictions are harmless and the draws come in clock order |
| LoginRuns.LogInTriesAreBounded | internal/handlers/user.go:82-115 | In any run of the whole server whose limiter calls are sparse, log-ins try at most 10 + (b - a) / 90 s passwords of one account in [a, b] for each address it has in the window, whatever the spellings, cookies and other requests (handler-atomic) |
| LoginRuns.PasswordTriesAreBounded | internal/handlers/user.go:82-233 | Log-ins, password changes and email changes together: that many, and 5 + (b - a) / 12 min + 3 + (b - a) / 20 min |
| Guesses.OnlyTriesDependOnPasswords | internal/handlers/user.go:82-233 | What counts as a try is all there is: any other request, refused ones included, gives the same answer, mails and rows whatever the hash of that user is |
| Guesses.RateLimitedIsExact | internal/handlers/ratelimit.go:39-51 | "Too many requests" is answered if and only if the request asks the limiter and is refused, and then no row changes but by the middleware and no mail goes out |
| Guesses.UnauthorizedIsExact | internal/middleware/session.go:44-61 | "Unauthorized" is answered if and only if the handler needs a user and the cookie lets nobody in; then, or if the user cannot be looked up, nothing more happens |
| Guesses.AnswersTellReplies | internal/handlers/user.go:253-430 | Answers tell success from failure and each error from the others, and carry the raw session id of a reply unchanged |
| LinkBound.LinksAreBounded | internal/handlers/user.go:161-184 | In any run of the whole server whose limiter calls are sparse, at most 3 + (b - a) / 20 min password links are mailed to one address in [a, b], in any spelling and whoever asks |
| LoginRuns.ServeAll | internal/server/server.go:30 | Any list of requests to a new server makes a run (Occurs) in which the answers of the limiter are those of one limiter (LimitsHold); tables, mail and cache are those of the run |
| Emails.Accepted | internal/service/user/service.go:536-571 | What is accepted is, once trimmed, local@domain with one @, neither half empty, a dot inside the domain and none at its ends, at most 254 long |
| Emails.NormalizeJoined | internal/service/user/service.go:536-571 | And everything of that shape is accepted, with only its domain lower-cased |
| Emails.NormalizeIsIdempotent | internal/service/user/service.go:536-571 | What normalisation returns is a fixed point of it |
| Emails.NormalizeKeepsFold | internal/service/user/service.go:536-571 | It never changes what the trimmed input folds to under CITEXT, and gives 1 to 254 characters |
| Emails.TrimIsExact | internal/service/user/service.go:494-501 | Trimming takes away white space only, from the two ends only, and all of it there |
| Emails.LowerIsExact | sqlc/migrations/20260417020535_init.sql:9 | Two texts fold to one if and only if they are equal letter by letter up to case |
| Db.LeastRecent | internal/db/sessions.sql.go:50-59 | The row that ORDER BY last_seen_at LIMIT 1 picks is a least recent one of that user, any of them if they tie |
| Db.Queries.CreateUser | internal/db/users.sql.go:12-39 | Inserts under the next id unless the address is some user's up to case; a failed insert uses up its id |
| Db.Queries.GetUserByEmail | internal/db/users.sql.go:41-58 | Finds a user just when the address is some user's up to case |
| Db.Queries.GetUserByID | internal/db/users.sql.go:60-77 | The row if there is one; no rows just when there is none; a failed query is told apart from both |
| Db.Queries.UpdateEmail | internal/db/users.sql.go:79-93 | Changes the address unless another user has it up to case; an unknown id is no error |
| Db.Queries.UpdatePasswordHash | internal/db/users.sql.go:95-109 | Changes the hash of that row only; an unknown id is no error |
| Db.Queries.CreateSession | internal/db/sessions.sql.go:12-38 | Inserts a row created and last seen now; duplicate id and unknown user are distinct errors |
| Db.Queries.DeleteAllSessionsForUser | internal/db/sessions.sql.go:40-48 | Leaves exactly the other users' rows |
| Db.Queries.DeleteLeastRecentlyUsedSessionForUser | internal/db/sessions.sql.go:50-64 | Deletes one least recent row of the user, if there is one |
| Db.Queries.DeleteSession | internal/db/sessions.sql.go:66-74 | Deletes that row if it is there |
| Db.Queries.GetSession | internal/db/sessions.sql.go:76-93 | Finds the row just when its user is active |
| Db.Queries.GetSessionCountByUser | internal/db/sessions.sql.go:95-106 | The number of rows of the user |
| Db.Queries.UpdateSessionLastSeenToNow | internal/db/sessions.sql.go:108-125 | Sets last_seen_at to now unless that would break created_at <= last_seen_at |
| Db.Queries.CreatePasswordResetRequest | internal/db/password_reset_requests.sql.go:25-42 | Inserts a row created now |
| Db.Queries.ConsumePasswordResetRequest | internal/db/password_reset_requests.sql.go:12-23 | Returns the row and deletes it, in one statement |
| Db.Queries.DeletePasswordResetRequestsForUser | internal/db/password_reset_requests.sql.go:44-52 | Leaves exactly the other users' rows |
| Db.Queries.CreateEmailResetRequest | internal/db/email_reset_requests.sql.go:30-53 | Inserts a row created now |
| Db.Queries.ConsumeEmailResetRequest | internal/db/email_reset_requests.sql.go:12-28 | Returns the row and deletes it, in one statement |
| Db.Queries.DeleteEmailResetRequestsForUser | internal/db/email_reset_requests.sql.go:55-63 | Leaves exactly the other users' rows |
| Db.Queries.Rollback | internal/service/user/transaction.go:32 | All tables are again as they were at the start of the transaction; the id sequence is not |
| Accounts.PasswordCheckIsExact | internal/service/user/service.go:503-521 | The check passes exactly the passwords of 13 to 256 characters that are neither blank nor common in any case |
| AccountLaws.PasswordRefusals | internal/service/user/service.go:503-521 | Which password gets which refusal: blank, 12 or shorter, longer than 256, common |
| AccountLaws.VerifyRefusals | internal/service/user/service.go:601-614 | Which check of a password gets which refusal: no slot, a failing check, a wrong password |
| Accounts.FindUser | internal/db/users.sql.go:41-58 | A user is found just when the address is taken, and its address is equal up to case |
| Accounts.FoundUserIsUnique | sqlc/migrations/20260417020535_init.sql:9 | With unique addresses the user found is the only one it could be |
| UserService.Service.CreatePasswordHash | internal/service/user/service.go:584-599 | Busy just when no slot is free; on every path the slot is given back |
| UserService.Service.VerifyPassword | internal/service/user/service.go:601-614 | True exactly on the hashed password; busy just when no slot is free; the slot is given back |
| UserService.Service.VerifyReauthentication | internal/service/user/service.go:523-534 | An error unless the password is the user's |
| UserService.Service.SignUp | internal/service/user/service.go:132-166 | Statement by statement the specified sign-up, of which the next two rows say when it succeeds and what it refuses |
| AccountLaws.SignUpIsExact | internal/service/user/service.go:132-166 | A sign-up succeeds if and only if the address is valid and nobody's up to case, the password strong, a slot free and no call fails; then it answers the next id and adds just that active row; else no row changes |
| AccountLaws.SignUpRefusals | internal/service/user/service.go:132-166 | And which refusal it gets, each exactly when |
| UserService.Service.LogIn | internal/service/user/service.go:168-204 | The reply of the specified log-in; no table changes |
| AccountLaws.LogInIsExact | internal/service/user/service.go:168-204 | A log-in succeeds as u if and only if the typed address is valid and folds to that of u, u is active, the password is that of u, a slot is free and no call fails |
| AccountLaws.LogInRefusals | internal/service/user/service.go:168-204 | And which refusal it gets, each exactly when |
| UserService.Service.DeleteOutstandingResetRequests | internal/service/user/service.go:466-478 | All requests of both kinds of the user are gone, or the call failed |
| UserService.Service.ClearAndCommit | internal/service/user/transaction.go:26-43 | Deletes sessions and requests and commits, or the caller rolls back |
| UserService.Service.ResetPasswordForAuthenticatedUser | internal/service/user/service.go:206-248 | All or nothing: new hash and a cleared user with the notice mailed, or tables as before |
| AccountLaws.ChangePasswordRefusals | internal/service/user/service.go:206-248 | Each refusal exactly when, and a notice to the user's address exactly on success |
| UserService.Service.ResetPasswordFromResetRequest | internal/service/user/service.go:290-358 | All or nothing: token consumed, new hash and a cleared user, or tables as before |
| AccountLaws.ResetPasswordRefusals | internal/service/user/service.go:290-358 | Each refusal exactly when, and on success a notice to the address of the token's user unless the look-up fails |
| UserService.Service.ResetEmailFromResetRequest | internal/service/user/service.go:420-464 | All or nothing: token consumed, new address and a cleared user, or tables as before |
| AccountLaws.ResetEmailRefusals | internal/service/user/service.go:420-464 | Each refusal exactly when, an address taken since included; nobody is mailed |
| UserService.Service.CreatePasswordResetRequest | internal/service/user/service.go:250-288 | Statement by statement the specified request, of which the next row says what it stores, mails and replies; the row stays when the mail fails |
| AccountLaws.PasswordRequestIsExact | internal/service/user/service.go:250-288 | A request with some user's address up to case stores one row for that user from now and mails the link to the normalised address, unless the id is used or a call before the mail fails; any other does nothing; with the reply of each |
| UserService.Service.CreateEmailResetRequest | internal/service/user/service.go:360-418 | One row, the link to the new address and a notice to the old one; the row stays when a mail fails |
| AccountLaws.EmailRequestIsExact | internal/service/user/service.go:360-418 | With the right password and a valid address that is nobody's it stores one row from now, mails the link to the new address and, if that goes out, a notice to the present one; otherwise it does nothing |
| AccountLaws.EmailRequestRefusals | internal/service/user/service.go:360-418 | And the refusals of a bad address, a busy pool, a wrong password and a taken address, each exactly when |
| SessionService.Service.CreateSession | internal/service/session/service.go:48-82 | Count, evict at ten, insert: the specified effect and reply, for the row the database chose to evict; the next row says which id it hands out |
| AccountLaws.CreateSessionIsExact | internal/service/session/service.go:48-82 | The raw id handed out is the one whose hash now has a row of that user created now; it is handed out if and only if no call fails, the id is unused and the user is there; at ten sessions one has gone first, even if the insert then fails |
| SessionService.Service.GetSession | internal/service/session/service.go:84-97 | The session of an active user under the hash of the raw id |
| SessionService.Service.DeleteSession | internal/service/session/service.go:99-108 | Deletes the row under the stored id, or fails and changes nothing |
| SessionService.Service.UpdateLastSeen | internal/service/session/service.go:110-119 | Touches just when the session as it was looked up is 20 minutes old; the row may have changed or gone since, which is a failure that changes nothing |
| SessionService.Service.DeleteAllSessionsForUser | internal/service/session/service.go:121-127 | Leaves exactly the other users' sessions, or fails and changes nothing |
| SessionService.SessionMiddleware | internal/middleware/session.go:62-127 | On every path `next` is called exactly once, with the session if it is alive; an expired row is deleted; the cookie is cleared just when it is known to be useless |
| AccountLaws.AuthenticateIsExact | internal/service/session/session_domain.go:25-44 | A living session is marked as seen now if and only if that was last done more than 20 minutes ago and the statement works; an expired one goes if its deletion works; nothing else changes |
| SessionService.WithUser | internal/middleware/session.go:44-60 | Runs as the session's user, looked up now, or not at all |
| Handlers.Limited | internal/handlers/ratelimit.go:39-51 | Turns a request away just when the limiter does not admit its key, and leaves the limiter as that one call does |
| Handlers.SignUpHandler | internal/handlers/user.go:51-80 | Sign-up, then a session for the new user, whose raw id is the answer |
| Handlers.LogInHandler | internal/handlers/user.go:82-115 | Limiter first; nothing else happens to a limited request; then log-in and a session, whose raw id is the answer |
| Handlers.LogOutHandler | internal/handlers/user.go:117-125 | Deletes the session the request came with; answers success even if that fails |
| Handlers.GetUserHandler | internal/handlers/user.go:127-134 | The id and the address of the session's user, as stored now |
| Handlers.ChangePasswordHandler | internal/handlers/user.go:136-159 | Authenticated, then limited by user, then the change; that a refused one does nothing is `Guesses.RateLimitedIsExact` |
| Handlers.RequestPasswordResetHandler | internal/handlers/user.go:161-184 | Limited by the folded address (`LoginBound.KeysAreExact`), then the request; an unknown address is answered as success |
| Handlers.ResetPasswordHandler | internal/handlers/user.go:186-207 | The reset with the token |
| Handlers.RequestEmailResetHandler | internal/handlers/user.go:209-233 | Authenticated, then limited by user, then the request |
| Handlers.ResetEmailHandler | internal/handlers/user.go:235-251 | The reset with the token |
| Servers.Server.Dispatch | internal/server/server.go:30 | Every handler has the effect and answer of its specification, and calls the limiter once if it asks it and not at all if it does not |
| Servers.Server.ServeHTTP | internal/middleware/session.go:62-127 | A request through middleware, handler, services and statements is exactly one specified step, and one call of the limiter, with its answer, if it asks it |
| Evolution.ServeEvolves | internal/handlers/user.go:51-251 | Whatever the request: new rows only under the id it drew and created now; old rows unchanged but for the touch of the living session it came with; no user disappears |
| Changes.OtherwiseUndisturbed | internal/handlers/user.go:51-251 | A request that changes no credentials leaves every user and every outstanding request as it was |
| Changes.ChangeIsExact | internal/service/user/service.go:206-248 | A change of credentials changes one row of users, removes all sessions and requests of that user, and nothing else |
| GoodTables.ServeKeepsGood | sqlc/migrations/20260417020535_init.sql:7-45 | Every request keeps the schema's constraints and whatever the write paths' checks enforce |
| Runs.GoodThroughout | sqlc/migrations/20260417020535_init.sql:7-45 | They hold in every state of every run, faults included |
| Runs.RowsAreDrawn | internal/service/session/service.go:129-138 | Every stored id is the hash of a random id drawn by an earlier request |
| Runs.EverythingIsOfThisEpoch | internal/service/user/service.go:206-248 | In every reachable state every session, password request and email request of a user was created in the user's current credential epoch (handler-atomic) |
| Runs.ChangeRevokes | internal/service/user/service.go:290-358 | What a user owned before a change of credentials is not there after it, however long the run goes on |
| Runs.OnlyChangesTouchUsers | internal/service/user/service.go:206-248 | No other request changes a user's address or hash |
| Runs.OthersAreUntouched | internal/service/user/service.go:466-478 | A change of one user's credentials leaves every row of every other user alone |
| Tokens.PasswordTokenIsSpentExactlyOnSuccess | internal/service/user/service.go:290-358 | The reset succeeds if and only if the token is stored and at most 15 minutes old, the password strong, a slot free and no call fails; else all tables are unchanged |
| Tokens.EmailTokenIsSpentExactlyOnSuccess | internal/service/user/service.go:420-464 | The same for the address: succeeds if and only if stored, fresh, address free and no call fails; else all tables are unchanged |
| Tokens.PasswordChangesExactlyOnSuccess | internal/service/user/service.go:206-248 | The authenticated change succeeds if and only if the password is right, the new one strong, a slot free and no call fails; else all tables are unchanged |
| Tokens.PasswordTokenWorksOnce | internal/service/user/service.go:290-358 | Over any run a password token takes effect at most once (handler-atomic) |
| Tokens.EmailTokenWorksOnce | internal/service/user/service.go:420-464 | Over any run an email token takes effect at most once |
| Tokens.PasswordTokenLastsForTheEpoch | internal/db/password_reset_requests.sql.go:12-23 | An outstanding password request stays, unchanged, exactly as long as its user's credentials do |
| Tokens.EmailTokenLastsForTheEpoch | internal/db/email_reset_requests.sql.go:12-28 | An outstanding email request stays, unchanged, exactly as long as its user's credentials do |
| Tokens.UnspentTokenStillWorks | internal/service/user/service.go:290-358 | After any failures a sound attempt within 15 minutes works if and only if the credentials have not changed since |
| Tokens.UnspentEmailTokenStillWorks | internal/service/user/service.go:420-464 | The same for an email token, if and only if moreover the address is free |
| Provenance.PasswordTokensGoToTheirUser | internal/service/user/service.go:250-288 | An outstanding password token was mailed only to its user's current address, up to case (handler-atomic) |
| Provenance.PasswordTokensArePosted | internal/service/user/service.go:250-288 | And it was mailed: every stored password request was posted, to nobody but its user |
| Provenance.EmailTokensGoToTheirAddress | internal/service/user/service.go:360-418 | An outstanding email token was mailed as a link to an address if and only if that is the address it would set |
| Provenance.AddressesAreVouchedFor | internal/service/user/service.go:420-464 | Every address of a user was set by the sign-up that made the user, with it, or by a reset that took effect with a token of that user that had been mailed to it |
| Provenance.HeldIffVouchedFor | internal/service/user/service.go:132-166 | Exactly the addresses so vouched for are ever held; that the held ones are vouched for is the content, the converse holds by definition |
| Provenance.PasswordsChangeOnProofOnly | internal/service/user/service.go:206-248 | A password changes only by one who runs as the user and knows it, or who presents an outstanding token mailed to nobody but the user |
| Provenance.EmailRequestsBeginWithThePassword | internal/service/user/service.go:360-418 | An email request appears only for the user the request runs as, with that user's password, for just the address asked for, which nobody had |
| Identities.AddressesStayCanonicalAndUnique | internal/service/user/service.go:536-571 | In every reachable state every address in users and email_reset_requests is a fixed point of normalisation and users' addresses differ up to case |
| Identities.PasswordsStayStrong | internal/service/user/service.go:503-521 | In every reachable state every hash is of a password that passes the policy, whichever path stored it |
| Identities.TypedAddressFinds | internal/service/user/service.go:168-204 | A typed address finds a user if and only if it folds to that user's address |
| Identities.SignUpThenLogIn | internal/service/user/service.go:132-204 | A sign-up address logs in that same user in any spelling until it is changed: the password then decides alone |
| Identities.RefusedLogInsLookAlike | internal/service/user/service.go:168-204 | Unknown address, inactive user and wrong password get one answer |
| Identities.TokenRequestsLookAlike | internal/handlers/user.go:320-332 | The answer to a request for a password token does not depend on which users there are |
| Identities.TokenRequestIsAnswered | internal/handlers/user.go:161-184 | What such a request is answered in every case, failing calls included: an unknown address gets what a known one gets |
| SessionLife.AuthenticationIsExact | internal/middleware/session.go:44-127 | A handler runs as u if and only if the cookie's raw id hashes to a stored session of active user u within 90 days of creation and 14 of last_seen_at |
| SignIns.AnswerOpensSession | internal/handlers/user.go:51-115 | An answer that signs in comes from a sign-up or an admitted log-in, and its raw id hashes to a new session of the user with the address and the password that were given |
| SignIns.PresentedCookieRunsAsItsUser | internal/handlers/user.go:51-134 | Sign up or log in, then present the cookie: for 14 days the request runs as that user, after them as nobody |
| SignIns.CookieIsForOneUser | internal/middleware/session.go:62-127 | At any later point of a run the cookie lets in the user it was handed out to, if and only if the session is there and inside both limits, and nobody else |
| SignIns.LogOutEndsTheSession | internal/handlers/user.go:117-125 | A log-out is answered as success, and unless the deletion failed the next request with the same cookie is nobody's (`EndIsFinal`: nor is any after it) |
| SignIns.SignInAndGetUser | internal/server/server.go:30 | Two requests to the server: what comes back for the cookie is, up to case, the trimmed address that was given |
| SessionLife.EndIsFinal | internal/service/session/session_domain.go:25-34 | An id that once lets nobody in (expired, evicted, logged out, revoked) never does again, even if the deletion of the row fails every time |
| SessionLife.ChangeEndsSessions | internal/service/user/service.go:206-248 | No session from before a change of credentials authenticates after it |
| SessionLife.SeenIsUsed | internal/service/session/service.go:110-119 | last_seen_at is never later than the last use, faults or not |
| SessionLife.UsedIsSeen | internal/service/session/service.go:110-119 | While touches succeed the last use is at most 20 minutes after last_seen_at |
| SessionLife.IdleTimeFollowsUse | internal/service/session/session_domain.go:25-44 | Unused for more than 14 days means expired; used within 14 days less 20 minutes means expired only by the 90 days |
| SessionLife.SessionsEndFourWays | internal/middleware/session.go:97-105 | A row disappears if and only if it is presented expired, logged out with, evicted by an admitted log-in of its own user with the right password and ten sessions, or revoked by a change of its user's credentials |
| SessionLife.SessionInUseSurvives | internal/service/session/session_domain.go:25-44 | A session used often enough, not logged out, evicted by its own user or revoked, is there for as long as the run goes on |
| SessionLife.EvictionIsNearlyLru | internal/service/session/service.go:54-59 | The session a log-in evicts was really last used at most 20 minutes later than any kept one of that user |
| SessionLife.CapThroughout | internal/service/session/service.go:46-59 | Request by request, no user ever has more than ten sessions |
| SessionCap.CapUnderInterleaving | internal/service/session/service.go:48-82 | Statement by statement, with at most k calls under way: never more than 9 + k sessions, less one for each call past its count; log-outs, delete-alls and touches included |
| SessionCap.CapIsReached | internal/service/session/service.go:48-82 | For every k >= 1 an interleaving reaches 9 + k |
| SessionCap.CapHoldsIffOneAtATime | internal/service/session/service.go:46 | MaxNumberOfActiveSessions is kept in all interleavings of at most k calls if and only if k <= 1 |
| SessionCap.AloneIsCreateSession | internal/service/session/service.go:48-82 | The small steps of one call in a row are the service's CreateSession, whatever fails and whoever it is for |
| SessionLife.SessionsBeginWithThePassword | internal/handlers/user.go:51-115 | A session row appears only with the sign-up of its user or with an admitted log-in that gave the user's password and, up to case and padding, address |
| HashSlots.SlotsAreConserved | internal/service/user/service.go:584-614 | Under any interleaving free slots and running hashes add up to MaxConcurrentHashes |
| HashSlots.BusyIffAllInUse | internal/service/user/service.go:585-588 | Busy is answered if and only if every slot is in another request's hands |
| HashSlots.IdlePoolIsFull | internal/service/user/service.go:589 | All slots are free if and only if nobody is hashing, whatever failed before |
| HashSlots.EnoughSlotsMeanNeverBusy | internal/service/user/service.go:128 | With at least as many slots as requests under way at any time nobody is ever told busy |
| HashSlots.NeverBusyIffEnoughSlots | internal/service/user/service.go:128 | In all interleavings of at most k requests at a time nobody is told busy if and only if there are k slots |
| CredentialRaces.StaleIffOvertaken | internal/service/user/service.go:290-358 | Statement by statement on the four tables: a stored session or request rests on a look-up from before a committed change of its user's credentials if and only if the change committed before the row was inserted |
| CredentialRaces.AlwaysFreshIffNeverOvertaken | internal/service/user/service.go:168-204 | No row is ever so stale in an execution if and only if no change commits between the look-up and the insert of a call for the same user |
| CredentialRaces.RowsFit | internal/service/user/service.go:250-288 | A stored row was written by a call for its user that had checked what it claims, and unless a change overtook the call the user's row is still the one it looked up |
| CredentialRaces.SessionIsOnPresentPassword | internal/handlers/user.go:93-106 | A stored session was opened with its user's present password if and only if no other was set between look-up and insert of the log-in |
| CredentialRaces.PasswordTokenIsForPresentAddress | internal/service/user/service.go:250-288 | A stored password token was asked for at its user's present address, up to case, unless its request was overtaken |
| CredentialRaces.ChangeIsOnPresentPassword | internal/service/user/service.go:206-248 | A password change in progress knows the present password if and only if no other was set since its look-up |
| CredentialRaces.ResetCanBeUndone | internal/handlers/user.go:136-159 | Wherever a password change stands between look-up and commit, a reset that commits in between is undone by it |
| CredentialRaces.OldSessionCanSurvive | internal/handlers/user.go:93-106 | Wherever a log-in stands between look-up and insert, any change of its user's credentials leaves it to insert a session that outlives the change |
| RacesAlone.RaceHappens | internal/handlers/user.go:51-159 | From empty tables: sign-up, session, log-in checked, password changed, session inserted on the old password |
| RacesAlone.LogInAloneIsEffect | internal/handlers/user.go:82-115 | The steps of a log-in in a row are the handler's effect, whatever fails |
| RacesAlone.SignUpAloneIsEffect | internal/handlers/user.go:51-80 | The same for a sign-up |
| RacesAlone.PasswordRequestAloneIsEffect | internal/service/user/service.go:250-288 | The same for a request for a password token |
| RacesAlone.EmailRequestAloneIsEffect | internal/service/user/service.go:360-418 | The same for a request for an email token |
| RacesAlone.PasswordChangeAloneIsEffect | internal/service/user/service.go:206-248 | The same for the authenticated password change |

## Left out

- Limiter.InMemoryLimiter.Allow: holds bucket values where the source holds pointers, and reads the clock once; buckets shared between calls in progress are modelled in `ConcurrentLimiter`.
- TokenBucket.TakeKeepsValid: exact integers in nanoseconds; floating-point rounding inside the bucket library is not modelled, nor a clock that goes back within a bucket beyond giving no refill. A Per below Count gives interval 0, which admits everything, as the library's infinite rate does.
- LimiterRefinement.BoundedEqualsUnbounded: runs have a non-decreasing clock and one policy per key, which `LoginBound.KeyHasOnePolicy` proves of the handlers.
- ConcurrentLimiter.ConcurrentCallsLinearise: interleavings with at most `size` keys in all; more keys are covered by `ConcurrentHarmless` and `ConcurrentSparse`.
- ConcurrentBounds.ConcurrentAdmissionBound: assumes that the draws on the key come in the order of their clock readings, which the code does not enforce.
- Emails.Normalize: ASCII case folding and Go's Latin-1 white space; characters are counted, where the source counts bytes of an address; Unicode differences between Go and CITEXT are out.
- UserService.Service.CreatePasswordHash: within one handler-atomic request the slots taken by other requests are a constant; their interleaving is in `HashSlots`.
- UserService.Service.CreatePasswordResetRequest: mail is recorded when it is handed to the mailer, whether or not that fails.
- Servers.Server.ServeHTTP: JSON decoding and its errors, response bodies, status codes beyond success, limited, unauthorized and error kind, and cookie attributes are not modelled.
- Runs.EverythingIsOfThisEpoch: handler-atomic runs only; between the statements of two handlers sessions, requests and password changes are covered by `CredentialRaces`, single use of tokens and where email tokens were mailed are not.
- Runs.GoodThroughout: no statement of the program ever deactivates a user, so in runs every user is active; the code's checks of `is_active` are modelled all the same, and `AuthenticationIsExact` holds for inactive users too.
- SessionCap.CapUnderInterleaving: two eviction statements at once that pick the same row are out, as statements are atomic.
- HashSlots.SlotsAreConserved: that a request holds at most one slot at a time is built into its progress, as in the source, where every hash is followed by its release before the next.
- The loader of the common-password file: the list is a given set of lower-case passwords.
- The functions that map errors to HTTP statuses, apart from hiding unknown addresses: finite tables.
- Logging, configuration, SMTP, start-up, static pages.
