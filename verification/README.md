# Kleido: sessions, authentication and users

A Dafny model of the authentication and session core of Kleido: the Redis session store and its
rate limiter, the login, refresh, logout and password-reset protocol, the bearer check, the user
service with its read-through cache, the users table, and the pagination of the user list. The
theorems are about every input, every run of calls, and, where the code's Redis commands can
interleave, every interleaving of commands.

    dafny verify dfyconfig.toml

## Layout

| module | what it holds |
|---|---|
| Base, Model | results, time units, 64-bit wrap-around, users and their JSON image, bcrypt idealised |
| Redis | values under keys with deadlines; lazy expiry; round trips that fail wholly or in part |
| Keyspace | the key builders, and why one flat map behaves as seven stores |
| RateLimit, RateLimitBounds, RateLimitInterleaved | the limiter against the log of requests; its bounds; its commands interleaved |
| UserTable, Users, Handlers | the table, the service with its cache, the list and update endpoints |
| Sessions, Auth | the repositories, the token arithmetic, the bearer check and the authentication service |
| Answers | what each operation answers, exactly when, and the fields of the answer |
| RoundTrips | pairs of calls: what one stores, the next finds |
| Protocol | the whole service as a timed machine with a log; what each call leaves alone |
| TableHistory, CacheTransparency, Revocation, LockoutCount, Lineage, Ancestry, TokenRoles, ResetAccounting | theorems about every run of that machine |
| AuthInterleaved, SingleUse, LockoutOvershoot, CacheStaleness, UpdateRaces | the same stores when the commands of concurrent calls interleave |
| Granularity | the two grains of atomicity describe one system |

The code's objects are classes (`Sessions.SessionRepo`, `Sessions.CacheRepo`,
`UserTable.UserRepository`, `Users.UserService`, `Auth.AuthService`, `Handlers.UserHandler`). Each
method is proved against a function of the old state (`Sessions.Rotate`, `Users.UpdateUser`,
`Auth.LoginCall`, ...), for every way its round trips can fail, and the theorems are about those
functions. `Protocol` runs the same functions; in its runs the pipeline that rotates a token can fail in
any way, and so can the UPDATE of a profile or a password, while the other round trips succeed.

Two grains of atomicity are kept apart. In `Protocol` each service call is one step. In
`RateLimitInterleaved`, `AuthInterleaved`, `CacheStaleness` and `UpdateRaces` each Redis or database
command is a step of its own. Clocks never go back in any of them.

## Where the code and its documentation differ

The model follows the code.

- `RotateRefreshToken` is documented as all or nothing (internal/repository/redis/session.go:112-113,
  internal/repository/interfaces.go:52-55), but a pipeline is not a transaction. Its success means what
  it says (`Sessions.SuccessMeansRotated`) and its error means nothing (`Sessions.ErrorTellsNothing`):
  the session may have been lost (`Ancestry.LostStoreEndsSession`) or doubled
  (`Ancestry.SingleUseExactlyWhen`).
- Refreshing is documented as single-use (internal/service/auth.go:169-171). That holds call by call
  (`Ancestry.LoginsHaveOneToken`). Validation and rotation are separate round trips:
  `SingleUse.BothSucceedExactlyWhen` says when two refreshes with one token both succeed, and
  `SingleUse.OneLoginTwoTokens` is such a run.
- Blocklist entries are documented to last for the remaining access lifetime
  (internal/repository/redis/session.go:6, SECURITY.md:25); they last for the refresh lifetime
  (internal/service/auth.go:240). `Revocation.SoundExactlyWhen` says for which settings that is enough.
- EXPIRE takes whole seconds and the client rounds down. The limiter's window
  (internal/repository/redis/session.go:222-223) therefore outlives its key unless it is below one
  second or a whole number of seconds: `RateLimitBounds.ExpiryInvisibleIff` and `SlidingWindowBoundIff`.
- `FindByEmail` leaves it to its callers to look at `IsActive` in login flows
  (internal/repository/postgres/user.go:74-75). Login does not: `RoundTrips.LoginIgnoresDeactivation`.
- A reset token is documented as consumed atomically (internal/repository/redis/session.go:248-256);
  `RoundTrips.ResetReplyTells` and `RoundTrips.BadRequestHidesToken` say what its callers can know.
- An update is for active users (internal/service/user.go:147-152), but its UPDATE does not look again
  and writes e-mail, role and status back as they were read (internal/repository/postgres/user.go:96-99).
  Call by call no inactive user comes back (`TableHistory.TableNeverForgets`). When calls overlap, a
  deletion or a demotion between the SELECT and the UPDATE is undone, by a non-admin too:
  `UpdateRaces.DeletionIsUndone` and `UpdateRaces.DemotionIsUndone` are such runs, and
  `UpdateRaces.RowNeverForgets` has the condition under which nothing of the kind happens.
- Updating to a taken e-mail is documented as a 409 (internal/handler/user.go:244); the repository
  reports it as an internal error (internal/repository/postgres/user.go:101-105):
  `RoundTrips.UpdateToTakenEmail`.
- A new password must have eight characters according to its message; the code counts bytes
  (internal/service/auth.go:313-314).
- `(page - 1) * perPage` can overflow (internal/handler/user.go:210):
  `Handlers.PageIsRightExactlyWhen` and `Handlers.OverflowShowsFirstPage`.

## Assumptions

- Durations and clock readings are integers of nanoseconds. The Redis server reads the same clock as
  the service; a key is dead from its deadline on. Whether the server has already removed a dead key
  cannot be observed (`Redis.LazyExpiryIsInvisible`), so the other modules never remove it.
- SHA-256 is any function without a collision among the strings in use (a condition of the keyspace
  theorems). bcrypt remembers its salt and password, and compares the 72 bytes that it reads of the
  password and the zero byte after it (`Model.BcryptKey`). A token verifies only if the service signed it.
- Random tokens, token ids, user ids and salts are parameters; runs draw values never drawn before.
- Scores of the sorted set are exact (milliseconds since the epoch are far below 2^53).
- In the sorted set a request is identified by its nanosecond, as in the code. The bounds count requests
  and say that stamps are distinct; `RateLimitBounds.SharedNanosecondsAreFree` shows why they must.
- Of a query of the database that fails nothing else is modelled; an INSERT or UPDATE can also take
  effect and lose its reply (`UserTable.Statement`).
- Theorems about runs start from empty Redis and from any table that meets the schema's constraints.

## Model

| member | source | states |
|---|---|---|
| Redis.LazyExpiryIsInvisible | internal/repository/redis/session.go:5-10 | For every schedule in which the server removes expired keys at any moments it likes, the commands get the replies of a server that never removes any |
| Redis.ExecKeepsSame | internal/repository/redis/session.go:5-10 | Stores that read alike from some time on answer any later command alike and still read alike after it |
| Keyspace.RenderIsInjective | internal/repository/redis/session.go:43-64 | The key builders together are injective: two keys with the same text are one key, absent hash collisions and colons in user ids |
| Keyspace.PurposesDisjoint | internal/repository/redis/session.go:50-64 | Keys of different purposes never have the same text, whatever the hash does |
| Keyspace.SplitAtFirstColon | internal/repository/redis/session.go:185 | `userID:endpoint` determines both parts when user ids hold no colon, however many the endpoint holds |
| Keyspace.ColonInUserIdCollides | internal/repository/redis/session.go:185 | Without that condition two users' keys can coincide |
| Keyspace.TokensDoNotCross | internal/repository/redis/session.go:50-64 | A string stored as one kind of token is never found as another kind |
| Keyspace.KeysAreSpelled | internal/repository/redis/session.go:5-10 | The text of each of the seven kinds of key |
| Keyspace.SecretsOnlyHashed | internal/repository/redis/session.go:12-13 | Tokens and e-mails get into key names through their hash alone |
| Keyspace.ExecHolds | internal/repository/redis/session.go:45-64 | One command on the flat map acts on the store of its own purpose as it would alone, and on no other |
| Keyspace.FlatMapIsSevenStores | internal/service/user.go:44-46 | Any interleaved trace over one flat map projects to independent runs over seven maps, reply by reply |
| Sessions.SessionRepo.StoreRefreshToken | internal/repository/redis/session.go:66-72 | On success the token resolves to the user; no other key changes; the error exactly when the round trip fails |
| Sessions.SessionRepo.ValidateRefreshToken | internal/repository/redis/session.go:74-85 | Resolves a live token to the stored user; missing and expired tokens are unauthorized; changes nothing |
| Sessions.SessionRepo.RevokeRefreshToken | internal/repository/redis/session.go:87-93 | On success the token is refused; no other key changes |
| Sessions.SessionRepo.BlocklistJti | internal/repository/redis/session.go:95-101 | On success the token id is blocked; no other key changes |
| Sessions.SessionRepo.IsBlocklisted | internal/repository/redis/session.go:103-110 | True exactly while an entry lives; changes nothing |
| Sessions.SessionRepo.RotateRefreshToken | internal/repository/redis/session.go:112-126 | On success the new token resolves to the user and the old one is refused; only those two keys change; both commands' effects for every way the pipeline can fail |
| Sessions.SuccessMeansRotated | internal/repository/redis/session.go:112-126 | A rotation answered with success is complete for every old and every new token |
| Sessions.ErrorTellsNothing | internal/repository/redis/session.go:112-126 | Under one and the same error the old and the new token can each be live or dead, in all four combinations |
| Sessions.SessionRepo.IncrLoginFailure | internal/repository/redis/session.go:130-142 | One more than the live counter, which then reads as the count returned; no other key changes |
| Sessions.SessionRepo.GetLoginFailures | internal/repository/redis/session.go:144-155 | The live counter, zero when there is none |
| Sessions.SessionRepo.ClearLoginFailures | internal/repository/redis/session.go:157-164 | On success the counter reads zero; no other key changes |
| Sessions.SessionRepo.IsLockedOut | internal/repository/redis/session.go:166-173 | True exactly from ten failures on |
| Sessions.SessionRepo.RateLimitAllow | internal/repository/redis/session.go:189-201 | The limiter's decision and effect on the address's key |
| Sessions.SessionRepo.RateLimitAllowUser | internal/repository/redis/session.go:177-187 | The limiter's decision and effect on the user-and-endpoint key |
| Sessions.SessionRepo.RateLimitByKey | internal/repository/redis/session.go:203-235 | Decision, remaining, reset time and new key, for every way the pipeline can fail; fails open |
| Sessions.CountRequestCell | internal/repository/redis/session.go:215-223 | On its own key the pipeline is the limiter's step, and it touches no other key |
| Sessions.SessionRepo.StorePasswordResetToken | internal/repository/redis/session.go:239-246 | On success the token resolves to the user, with one hour to live; no other key changes |
| Sessions.SessionRepo.ConsumePasswordResetToken | internal/repository/redis/session.go:248-272 | Returns the user of a live token, which is then refused; anything else is an untyped error; for every way the pipeline can fail |
| Sessions.CacheRepo.SetJson | internal/repository/redis/cache.go:23-33 | Stores the image of the user, which has no password hash |
| Sessions.CacheRepo.GetJson | internal/repository/redis/cache.go:35-47 | Hits exactly when a live image is there; the user read back has an empty hash |
| Sessions.CacheRepo.Delete | internal/repository/redis/cache.go:49-55 | Deletes the image |
| RateLimit.CellIsLog | internal/repository/redis/session.go:215-223 | After any run of requests the sorted set is exactly the logged requests, admitted or denied, stamped after the start of the window, with the right deadline |
| RateLimit.DecisionIsLogCount | internal/repository/redis/session.go:211-234 | A request is admitted if and only if that many, itself included, are at most the limit; `remaining` is exactly the difference |
| RateLimit.CountedIsWindow | internal/repository/redis/session.go:217-221 | What ZCARD counts is the log's window at that moment, whether the key had expired or not |
| RateLimit.PruneLeavesSurvivors | internal/repository/redis/session.go:212-217 | Inclusive pruning in whole milliseconds removes exactly the requests that left the window |
| RateLimit.CoversExactly | internal/repository/redis/session.go:222-223 | The whole seconds that EXPIRE gets cover the window exactly for windows below a second or of whole seconds |
| RateLimitBounds.SlidingWindowBound | internal/repository/redis/session.go:211-234 | Every interval of one window that begins on a whole millisecond admits at most `limit` requests, no two of them sharing a nanosecond |
| RateLimitBounds.SlidingWindowBoundIff | internal/repository/redis/session.go:222-223 | That bound on requests holds in all runs with distinct stamps if and only if the window is below a second or of whole seconds |
| RateLimitBounds.ClosedIntervalBound | internal/repository/redis/session.go:212-219 | From any nanosecond on, every closed interval one millisecond short of the window admits at most `limit` requests, stamps being distinct |
| RateLimitBounds.SharedNanosecondsAreFree | internal/repository/redis/session.go:219 | Distinct stamps are needed: any number of requests in one nanosecond is admitted under a limit of one |
| RateLimitBounds.RoundingIsTight | internal/repository/redis/session.go:217-219 | One nanosecond more and the bound fails, for every window of whole milliseconds that its key survives and every positive limit that has that many nanoseconds to fall into |
| RateLimitBounds.OldRequestsAreNotCounted | internal/repository/redis/session.go:212-217 | A request one window old or older never counts |
| RateLimitBounds.ExpiryInvisibleIff | internal/repository/redis/session.go:222-223 | EXPIRE changes no answer in any run if and only if the window is below a second or of whole seconds |
| RateLimitBounds.EarlyExpiryShows | internal/repository/redis/session.go:222-223 | For every other window, two requests that the limiter answers differently with EXPIRE and without |
| RateLimitBounds.SilenceRecovers | internal/repository/redis/session.go:217-234 | After a silence of one window the next `limit` requests are all admitted, whatever was denied before |
| RateLimitBounds.HammeringNeverRecovers | internal/repository/redis/session.go:218-233 | Denied requests count: a client that keeps more than `limit` requests in the window is never admitted |
| RateLimitBounds.FailuresOnlyLoosen | internal/repository/redis/session.go:225-234 | Whichever pipelines fail, wholly or partly, a denied request really had more than `limit` arrivals in its window |
| RateLimitBounds.FaultyCellHoldsArrivals | internal/repository/redis/session.go:215-227 | Whatever was lost, the set holds only requests that arrived, under their own stamps |
| RateLimitInterleaved.InterleavedBound | internal/repository/redis/session.go:215-231 | However the four commands of concurrent requests interleave: of the requests stamped and counted within one window from a whole millisecond, at most `limit` are admitted, if stamps are distinct and a key they were added to does not die meanwhile; a key that died of silence before does not matter |
| RateLimitInterleaved.InterleavedBoundWhenPrompt | internal/repository/redis/session.go:217-223 | The same with nothing assumed of the key, if the clock stands still between each request's ZADD and its EXPIRE and the seconds of EXPIRE cover the window |
| RateLimitInterleaved.InterleavedBoundWithoutExpire | internal/repository/redis/session.go:215-221 | With EXPIRE set aside the bound needs no condition on the key |
| RateLimitInterleaved.LostKeyAdmitsTooMany | internal/repository/redis/session.go:215-231 | A run that breaks that one condition, all others being met, and admits two requests under a limit of one |
| UserTable.UserRepository.Create | internal/repository/postgres/user.go:29-53 | Conflict exactly when a legal row meets a taken id or e-mail; internal for everything else that goes wrong, lost replies included; the row is there exactly when nothing stood against it |
| UserTable.UserRepository.FindById | internal/repository/postgres/user.go:55-72 | Finds active rows only |
| UserTable.UserRepository.FindByEmail | internal/repository/postgres/user.go:74-92 | Finds rows of any status |
| UserTable.UserRepository.Update | internal/repository/postgres/user.go:94-106 | Refused exactly for an illegal role or an e-mail of another row; otherwise writes email, role, status and time of that row and no other column or row; constraints are kept |
| UserTable.UserRepository.UpdatePassword | internal/repository/postgres/user.go:108-118 | Writes the hash and time of that row and nothing else, also when only the reply is lost |
| UserTable.UserRepository.Delete | internal/repository/postgres/user.go:120-130 | Deactivates that row; no row goes away |
| UserTable.UserRepository.List | internal/repository/postgres/user.go:132-177 | The rows at the offset, without hashes, and the count of all rows |
| UserTable.InsertKeepsConstraints | migrations/000001_create_users.up.sql:3-8 | Insertion keeps ids, roles and the uniqueness of e-mails |
| UserTable.UpdateRowKeepsConstraints | internal/repository/postgres/user.go:94-106 | So does an update |
| UserTable.ListingCountsRows | internal/repository/postgres/user.go:135-147 | A listing has exactly as many rows as the count says |
| Users.UserService.GetById | internal/service/user.go:48-94 | Hit, miss, failed lookup and failed fill: the answer and what is cached afterwards |
| Users.UserService.GetByEmail | internal/service/user.go:96-99 | Reads the table and never the cache |
| Users.UserService.Create | internal/service/user.go:101-135 | On success the answer is the new row: active, with the e-mail and role asked for and no other; over-long passwords and taken e-mails are refused and leave the table as it was |
| Users.UserService.Update | internal/service/user.go:137-182 | Answer, rows and cache after every mixture of failures |
| Users.AnswerIsRow | internal/service/user.go:154-181 | The answer of an update is the row as written, but for the time that the database puts in |
| Users.UserService.Delete | internal/service/user.go:184-213 | On success the row is there and inactive; answer, rows and cache after every mixture of failures |
| Users.UserService.UpdatePassword | internal/service/user.go:215-237 | Answer, rows and cache after every mixture of failures |
| Users.UserService.List | internal/service/user.go:239-260 | The responses of the page in order, and the total |
| Handlers.UserHandler.ListUsers | internal/handler/user.go:177-228 | Forbidden exactly for callers that are not admins; clamping, 64-bit offset and page |
| Handlers.UserHandler.GetUser | internal/handler/user.go:110-161 | Forbidden exactly for a non-admin who asks for someone else; bad ids and the service's answers |
| Handlers.UserHandler.DeleteUser | internal/handler/user.go:316-342 | Behind the route's role check: Forbidden exactly for callers that are not admins |
| Handlers.UserHandler.UpdateUser | internal/handler/user.go:247-301 | Forbidden exactly for a non-admin who changes someone else; on success the answer shows the row as it now is, field by field; id (in every form that uuid.Parse takes), caller and body checks in order |
| Handlers.ReadsAndDeletionsAreHandlers | internal/handler/user.go:110-161 | Reads and deletions of the protocol are these endpoints called with the token's claims |
| Handlers.NumbersAreRead | internal/handler/user.go:41-52 | Every number that fits is read back from its decimal text, whatever the default |
| Handlers.PageSize | internal/handler/user.go:194-204 | Whatever the client sends, the size is in 1 to 100 |
| Handlers.PagesPartitionTheList | internal/handler/user.go:193-211 | For every requested size, pages 1 to ceil(n / size) are served and together show every row exactly once, in order |
| Handlers.PageIsRightExactlyWhen | internal/handler/user.go:210-211 | The page served is the page asked for if and only if the offset does not overflow or overflows past the last row |
| Handlers.OverflowShowsFirstPage | internal/handler/user.go:210-211 | A page number that shows the first rows again |
| Handlers.ProfileUpdateIsHandler | internal/handler/user.go:263-289 | A profile update of the protocol is the endpoint called with the token's claims |
| Auth.AuthService.Register | internal/service/auth.go:59-71 | On success the row is there as answered: active, of role "user", with this e-mail and id |
| Auth.AuthService.Login | internal/service/auth.go:73-167 | Too many requests exactly for an address that Redis says is locked; on success the access token is of the row with that e-mail and password, with its role and the configured lifetime, and the refresh token resolves to its subject; for every mixture of failures |
| Auth.AuthService.Refresh | internal/service/auth.go:169-231 | Unauthorized for every dead token; on success the new token resolves to the subject and the old one is refused; for every mixture of failures |
| Auth.AuthService.Logout | internal/service/auth.go:233-258 | Blocklists the token id, then revokes the refresh token; on success the one is blocked and the other refused |
| Auth.AuthService.ForgotPassword | internal/service/auth.go:260-304 | Ok for every address, known or not, while Redis takes the token; the only error is internal |
| Auth.AuthService.ResetPassword | internal/service/auth.go:306-355 | Short passwords are refused first; the token is consumed before the password is written, and is gone after success and after an internal error alike |
| Answers.LoginAnswers | internal/service/auth.go:84-166 | For an address with a row, exactly when a login is answered Too many requests, Unauthorized, Internal or Ok; the token of a success field by field: subject, role, id, whole-second times |
| Answers.LoginEffects | internal/service/auth.go:110-155 | A login touches its address's counter and its token's key alone; a failure counts one and lives 15 minutes, a success clears |
| Answers.LoginWithoutAccount | internal/service/auth.go:98-108 | An address without a row is answered like a wrong password and nothing is counted |
| Answers.RefreshAnswers | internal/service/auth.go:172-231 | Exactly when a refresh is answered Unauthorized, Internal or Ok; the token of a success field by field, with the role of the user just read |
| Answers.ReadAnswers | internal/service/user.go:51-94 | A hit answers with the image less the hash; anything else with the active row, NotFound or Internal, each exactly when |
| Answers.ReadThenRead | internal/service/user.go:26 | A row that was read is served from the cache for five minutes and not from then on |
| Answers.RegisterAnswers | internal/service/user.go:103-135 | Exactly when a registration is answered Ok, Conflict or Internal; the new row field by field, active; all other rows as before |
| Answers.RegisterThenRead | internal/service/user.go:117-134 | If nothing stands against an account it is registered, and a read gives what was answered |
| Answers.UpdateAnswers | internal/service/user.go:140-182 | Exactly when an update is answered Ok, NotFound or Internal; the answer of a success is the row as written, field by field |
| Answers.UpdateEndpointAnswers | internal/handler/user.go:251-300 | The same for the endpoint, with exactly when BadRequest and Forbidden; refused requests change nothing |
| Answers.DeleteAnswers | internal/service/user.go:186-213 | Exactly when a deletion is answered Ok, NotFound or Internal, and that only that row can change |
| Answers.DeleteEndpointAnswers | internal/middleware/jwt.go:75-89 | Forbidden exactly for non-admins; Ok exactly for an admin, an active row and an UPDATE that is heard of |
| Answers.ReadEndpointAnswers | internal/handler/user.go:133-160 | Forbidden exactly for a non-admin asking for another; else the user that was read, field by field |
| Answers.PasswordAnswers | internal/service/user.go:217-237 | A password is changed by id alone, in any status; an unknown id is no error; the cached image goes |
| Answers.ForgotAnswers | internal/service/auth.go:263-304 | Known and unknown addresses are answered alike while Redis takes the token; a token is stored exactly for a known one, for its user |
| Answers.ResetAnswers | internal/service/auth.go:309-355 | Exactly when a reset is answered BadRequest, Internal or Ok: 8 to 72 bytes, a live token, an UPDATE that is heard of |
| Answers.LogoutAnswers | internal/service/auth.go:234-258 | Ok exactly when both round trips succeed; the refresh token is left alone when the first fails |
| Answers.BearerAnswers | internal/middleware/jwt.go:46-61 | The bearer check fails open when Redis is down and closed on a blocklist entry otherwise |
| Answers.ListAnswers | internal/handler/user.go:181-227 | Forbidden exactly for non-admins; an answer has at most `per_page` rows and the total of all |
| Answers.ListByDefault | internal/handler/user.go:41-52 | Without a readable query an admin gets page 1 of size 20: the first rows, field by field |
| Answers.ListClamps | internal/handler/user.go:193-204 | Pages and sizes out of range are moved to the nearest end, signs included |
| Answers.ResponseShowsUser | internal/model/user.go:39-45 | The public shape has the five fields of the user, each in its place |
| Answers.JsonKeepsAllButHash | internal/model/user.go:12-20 | Through JSON and back a user loses the hash and nothing else |
| Answers.UuidForms | internal/handler/user.go:251-259 | A UUID is read in four forms and in either case |
| Answers.LifetimesAreRounded | internal/repository/redis/session.go:223 | SET keeps the whole milliseconds and EXPIRE the whole seconds of a lifetime, and at least one |
| Answers.LimiterAnswers | internal/repository/redis/session.go:225-234 | Without an answer from Redis a request is let through with the whole limit left; with one, exactly if no more than `limit` are counted |
| Answers.NothingArrivesNothingChanges | internal/repository/redis/session.go:66-272 | A round trip of which nothing arrives changes no key, for every operation |
| Answers.EffectWithoutReply | internal/repository/redis/session.go:66-164 | A command whose reply is lost has had its whole effect |
| Answers.HalfCountedFailure | internal/repository/redis/session.go:133-142 | A failure counted without its EXPIRE has no new deadline, a first one none at all; EXPIRE without INCR moves the deadline alone |
| Answers.LogTellsRefresh | internal/service/auth.go:172-231 | What a run logs of a refresh is what its caller was answered |
| Answers.LogTellsForgot | internal/service/auth.go:269-303 | What a run logs of a request for a reset names the row of that e-mail, exactly if there is one |
| RoundTrips.UpdateThenRead | internal/service/user.go:137-182 | After an update a read shows what was asked for, the role only for admins and all else as before, whatever was cached |
| RoundTrips.UpdateThenReadAnother | internal/service/user.go:137-182 | Reads of every other user are as before the update |
| RoundTrips.FailedUpdateChangesNothing | internal/service/user.go:147-172 | A failed update whose UPDATE did not lose its reply leaves rows and keys as they were |
| RoundTrips.LostReplyLeavesStale | internal/service/user.go:168-178 | With the reply of the UPDATE lost the row is changed, the caller gets an error, and the old cached user goes on being served |
| RoundTrips.UpdateToTakenEmail | internal/repository/postgres/user.go:101-105 | Asking for the e-mail of another user is an internal error and changes nothing |
| RoundTrips.DeleteThenAnything | internal/service/user.go:184-213 | A deleted user is not found by reads, updates or deletes, and the row stays |
| RoundTrips.RegisterThenLogin | internal/service/auth.go:98-166 | A new account logs in exactly with the candidates that bcrypt does not tell from its password, with a token of its own id and the role "user" |
| Model.BcryptReadsShort | internal/service/auth.go:111 | Bcrypt tells apart passwords of at most 72 bytes without zero bytes |
| Model.BcryptReadsLong | internal/service/auth.go:111 | Of longer ones it reads the first 72 bytes |
| RoundTrips.RegisterTwice | internal/repository/postgres/user.go:45-51 | A registered address cannot be registered again |
| RoundTrips.LoginIgnoresDeactivation | internal/repository/postgres/user.go:74-75 | Deactivating any row changes no login |
| RoundTrips.StoreThenRefresh | internal/service/auth.go:172-231 | A refresh token works until its lifetime ends and not from then on; after a refresh the old one is refused for ever and the new one resolves to the same user |
| RoundTrips.ForgotThenReset | internal/service/auth.go:263-355 | A reset token works for one hour, sets that user's password and no other column or row, and is gone |
| RoundTrips.ResetReplyTells | internal/service/auth.go:309-355 | What each reply of a reset tells, whatever failed: on success the token was live, is gone and the password is set; on an internal error the token is gone; on a bad request no password changed |
| RoundTrips.BadRequestHidesToken | internal/repository/redis/session.go:254-262 | A bad request does not tell whether the token still works: both can be the case |
| RoundTrips.FailedResetSpendsToken | internal/service/auth.go:306-350 | After a reset whose UPDATE fails every later reset with the token finds none and changes nothing, whatever fails then |
| Protocol.CallFrame | internal/repository/redis/session.go:5-10 | Each call logs one event, changes only the keys of its own purposes, and rows only if it is a writing call |
| TableHistory.ConstraintsHold | migrations/000001_create_users.up.sql:3-8 | In every run e-mails stay distinct, roles legal and rows under their ids |
| TableHistory.TableNeverForgets | internal/service/user.go:103-237 | Over any stretch of any run no row goes away, no inactive row comes back, and every change traces to an admin, the user or a reset token; of a role, to an admin; of a password, to a reset token |
| TableHistory.NonAdminsChangeOnlyThemselves | internal/handler/user.go:263-289 | Profile updates with non-admin tokens change no role, no password and no row but the callers' own |
| TableHistory.NewRowsAreRegistered | internal/service/auth.go:59-71 | In every run each row that was not there at the start was made by a registration, active, of role "user", with the e-mail and password asked for |
| TableHistory.NoEntryWithoutToken | internal/middleware/jwt.go:38-61 | Behind the bearer check nothing is read, changed or signed without an accepted token |
| UpdateRaces.RowNeverForgets | internal/service/user.go:147-213 | However the statements of updates and deletions interleave: if no one writes a row between the SELECT and the UPDATE of an update of it, the row stays, once inactive stays inactive, and only admins change its role |
| UpdateRaces.DeletionIsUndone | internal/service/user.go:147-172 | A run without that condition: a deletion is undone by the user's own change of e-mail |
| UpdateRaces.DemotionIsUndone | internal/service/user.go:147-172 | Another: a demoted admin is an admin again |
| CacheTransparency.CacheIsInvisible | internal/service/user.go:51-94 | A run with the cache and the same run without it log the same events, answers and tokens, also after updates that fail in the database |
| CacheTransparency.CacheStaysCoherent | internal/service/user.go:174-178 | In every run every cached image is the current active row without its hash |
| CacheTransparency.FetchAgrees | internal/model/user.go:12-45 | A cached read and a table read agree in everything but the hash |
| CacheTransparency.StepMirrors | internal/service/user.go:140-237 | Every call keeps the two systems alike |
| CacheStaleness.HitsAreRecent | internal/service/user.go:60-90 | However reads, writes and lost invalidations interleave, a hit at time t shows the active row as it was at some moment in (t - 5min - d, t], d being the longest gap from a read's SELECT to its SET |
| Granularity.LoginAlone | internal/service/auth.go:84-155 | The commands of one login, uninterrupted, do what the whole call does |
| Granularity.RefreshAlone | internal/service/auth.go:176-221 | So do those of a refresh, with the same success |
| Granularity.LogoutAlone | internal/service/auth.go:240-252 | So do those of a logout |
| Granularity.LimiterAlone | internal/repository/redis/session.go:215-234 | So do the four commands of the limiter, with the same verdict |
| Granularity.ReadAlone | internal/service/user.go:75-90 | So do the SELECT and the fill of a read |
| Granularity.InvalidationAlone | internal/service/user.go:168-178 | So do the write and the invalidation of an update |
| Granularity.UpdateAlone | internal/service/user.go:147-172 | So do the SELECT and the UPDATE of an update |
| Revocation.BlocklistIsRevokedSet | internal/middleware/jwt.go:46-61 | In every run the bearer check accepts exactly the signed tokens that are within their times and were never logged out, although entries expire |
| Revocation.SoundExactlyWhen | internal/service/auth.go:240 | That holds in all runs if and only if the entries' lifetime is unlimited or at least the access lifetime |
| Revocation.SoundForWholeDays | internal/auth/jwt.go:78-81 | For every number of days that fits a Duration: exactly when those days cover the access lifetime |
| Revocation.ShortEntriesForget | internal/service/auth.go:240 | With shorter entries there is a run in which a logged-out token is accepted again |
| LockoutCount.CounterIsStreak | internal/repository/redis/session.go:133-173 | In every run the counter is the length of the current streak of wrong passwords since the last success with gaps below 15 minutes; it never exceeds ten; locked means ten |
| LockoutCount.StreakIsLongest | internal/service/auth.go:111-116 | That streak is the longest suffix of the failures without a gap of 15 minutes |
| LockoutCount.CloseFailuresAllCount | internal/repository/redis/session.go:133-142 | When no two failures since the last success are 15 minutes apart the counter is their number |
| LockoutCount.LockedLoginsChangeNothing | internal/service/auth.go:84-96 | Attempts while locked change no key, no row and no token |
| LockoutCount.LockEndsExactly | internal/service/auth.go:84-116 | A login is refused for the lock if and only if less than 15 minutes have passed since the tenth failure |
| Lineage.InvHolds | internal/repository/redis/session.go:67-126 | In every run, failed rotations included, each refresh key holds exactly what the log says, no token is issued twice, and every rotation was tried with a live token of the same user |
| Ancestry.LiveTokenDescendsFromOneLogin | internal/service/auth.go:172-231 | In every run, failed rotations included, a live refresh token ends exactly one chain of rotations, each made within its predecessor's lifetime, that begins at one successful login of the user it resolves to |
| Ancestry.LoginsHaveOneToken | internal/service/auth.go:216 | The chains of one login have at most one live token, unless a failed rotation stored its new token and left the old one |
| Ancestry.SingleUseExactlyWhen | internal/repository/redis/session.go:119-122 | In a run no login ever has two live tokens if and only if no failed rotation did that |
| Ancestry.LostStoreEndsSession | internal/repository/redis/session.go:119-122 | After a failed rotation that deleted the old token and stored no new one no token of that login is ever live again |
| Ancestry.AccessTokensNameTheirLogin | internal/service/auth.go:142-155 | In every run every access token ever signed lies on a chain from a login of the user it names |
| TokenRoles.TokensCarryTheirRole | internal/auth/jwt.go:43-65 | In every run every access token was signed by a login or a refresh for a row of that moment, with that row's role and the configured lifetime; by a refresh only for an active row |
| Ancestry.ChainIsUnique | internal/service/auth.go:172-231 | Two chains that end at one issue are one chain |
| Ancestry.RotatedOnce | internal/repository/redis/session.go:119-122 | A token is rotated at most once, unless a failed rotation left it in place |
| ResetAccounting.LiveTokensAreOutstanding | internal/repository/redis/session.go:241-272 | In every run live reset tokens are those requested, less those taken, less those an hour old |
| ResetAccounting.ResetsMapToRequests | internal/service/auth.go:263-355 | In every run consumptions map one-to-one to earlier requests less than an hour old, successful resets to requests of the same user |
| ResetAccounting.NoTokenTwice | internal/service/auth.go:306-327 | In every run no token is taken twice, even when the UPDATE after the first taking failed |
| ResetAccounting.TakenTokenIsRefused | internal/service/auth.go:320-327 | In every run a reset with a token taken before, successfully or not, is refused and changes nothing that can be read |
| ResetAccounting.FailedWriteSpendsToken | internal/service/auth.go:345-350 | A reset whose UPDATE fails spends its token and changes no row |
| ResetAccounting.ShortPasswordTakesNothing | internal/service/auth.go:313-318 | A password of fewer than eight bytes spends no token |
| ResetAccounting.ResetSetsPassword | internal/service/auth.go:337-354 | After a reset the account accepts exactly the candidates that bcrypt does not tell from the new password |
| AuthInterleaved.InterleavedLoginsOvershootByAtMostK | internal/service/auth.go:84-130 | With at most k logins of an address in flight, no interleaving of check, comparison, INCR, EXPIRE, DEL and key expiry takes the counter above 9 + k |
| LockoutOvershoot.OvershootIsAttained | internal/service/auth.go:84-116 | For every k of at least one there is such a run whose counter reaches 9 + k |
| AuthInterleaved.RevocationIsPermanent | internal/repository/redis/session.go:76-126 | In every interleaving, once a rotation or logout has deleted a stored token, every later validation of it fails |
| SingleUse.BothSucceedExactlyWhen | internal/service/auth.go:176-221 | In every interleaving, two refreshes with one token that run to their end and find their user both succeed if and only if at some moment both had validated the token and neither had deleted it |
| SingleUse.BothSucceededHeldTogether | internal/service/auth.go:176-221 | One half of that: each validated before the other deleted |
| SingleUse.OneLoginTwoTokens | internal/service/auth.go:172-231 | A run of interleaved commands in which one login ends with two live tokens |

## Left out

- RateLimitInterleaved.InterleavedBoundWhenPrompt: its conditions are sufficient, and a run or a log shows each to be needed (RateLimitInterleaved.LostKeyAdmitsTooMany, RateLimitBounds.RoundingIsTight, RateLimitBounds.SharedNanosecondsAreFree, RateLimitBounds.EarlyExpiryShows); a run that breaks one of them may still keep the bound.
- AuthInterleaved.InterleavedLoginsOvershootByAtMostK: for runs without Redis errors; an INCR whose EXPIRE is lost leaves a counter without a deadline.
- CacheTransparency.CacheIsInvisible: for calls that do not overlap, cache round trips that succeed and UPDATEs that do not lose their reply (RoundTrips.LostReplyLeavesStale shows the last to be needed); CacheStaleness covers the rest.
- TableHistory.TableNeverForgets: for calls that do not overlap; UpdateRaces.RowNeverForgets covers overlapping ones.
- LockoutCount.CounterIsStreak: for runs without Redis errors; Auth.AuthService.Login covers single calls with them.
- Single use of reset tokens when two resets with one token interleave: the code does not provide it.
- In runs, failures other than those of a rotation and of an UPDATE, such as a login whose token is stored but whose reply is lost, and lost replies of the database: the contracts of single calls cover them.
- Cryptography (RSA, SHA-256, bcrypt, random sources, base64): idealised as stated above.
- Failures of signing and of the random source, and INCR beyond 64 bits.
- Other claims and header checks of a JWT, and the parsing of the Authorization header: a bearer is a signed token or nothing.
- GET on a key of another kind is an error; the service never causes one (Keyspace.FlatMapIsSevenStores).
- The order of rows created at the same instant: any order that the listing may have.
- Rows change between two pages: the partition of the list is for a table at rest.
- updated_at is the time of the call; the database reads its own clock.
- Tenants: the user queries do not look at them.
- HTTP plumbing, cookies, JSON decoding, routing, mail, audit log, metrics, tracing, configuration, seeding, the command line, the API client and the web interface.
