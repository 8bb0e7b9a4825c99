# A verified model of the casting marketplace API

The repository is a Go web service over PostgreSQL for castings and models. This project models the
parts of it that are small state machines or transformers and proves what they keep over every run.
Tables are maps or sequences, one SQL statement is one atomic step, and whatever the program gets
from outside (clock readings, fresh ids, random bytes, failing statements) is a parameter, so that
each theorem holds for all of them. Code that updates state in place is a class whose methods are
proved equal to a specification function; the theorems about runs are about those functions.

| file | what it models |
|---|---|
| `WindowLimiter.dfy` | the sliding-window limiter of the chat commands, with in-place compaction of slices |
| `AuthStore.dfy`, `Auth.dfy` | tables, statements and operations of registration, verification, login, refresh, logout |
| `AuthAnswers.dfy`, `AuthLifetimes.dfy` | what each operation answers and leaves for every failing statement; how long tokens and codes live; who gets in |
| `TokenChains.dfy`, `AuthRuns.dfy` | refresh-token chains and the invariants of every run of the service |
| `AttemptBound.dfy`, `RefreshRace.dfy` | confirming codes, and refreshing, with the statements of concurrent requests interleaved |
| `Ilike.dfy`, `Sql.dfy`, `Queries.dfy`, `Paging.dfy` | pattern search, three-valued conditions with numbered arguments, filtered and ordered queries, pages |
| `CastingSearch.dfy`, `CastingList.dfy` | the compiler from a filter to a WHERE clause, and the list endpoints |
| `CastingAcceptance.dfy` | the conditional UPDATE that counts accepted models and closes a casting |
| `Attachments.dfy` | attaching, reordering, deleting and listing uploads |
| `AdminRoles.dfy`, `AdminLists.dfy`, `AdminUsers.dfy` | managing administrators; the admin lists; the assembled UPDATE |
| `Schema.dfy` | the few things the code asks of the database that the migrations may or may not define |
| `Moderation.dfy`, `ModerationRuns.dfy` | resolving reports and verifying organizations as transactions; what they achieve over runs of everything that writes a status |
| `CommaList.dfy`, `ResponseCapture.dfy` | the comma parser and joiner; the bounded copy of a response body |
| `Base.dfy` | options and histories |

`dafny verify dfyconfig.toml` checks everything.

## What the proofs found

Where a property is false of the code, one lemma shows an input and another gives the exact condition.

- The limiter reads its clock before it takes the lock (`notification_command_limiter.go:24-27`). With a
  limit of at least two, a call that waits can put one admission too many into a window
  (`OvertakenIsUnsafe`). The full window is safe if and only if the limit is at most one, readings are
  processed in order, or the window is empty (`FullWindowSafeIff`); a window shortened by e is safe if
  and only if the limit is at most one, e covers the skew, or what is left of it is empty
  (`ShortenedWindowSafeIff`), and the same with the longest wait for the lock as the skew
  (`WaitingWindowSafeIff`).
- With k confirms of one code in flight, 4 + k wrong guesses can be counted against a cap of five, and
  no more (`AttemptsAreBounded`, `BoundIsReached`): the cap holds if and only if k is at most one
  (`CapHoldsIff`).
- `RevokeByTokenHash` does not report whether a row changed, so overlapping refreshes of one token can
  each mint a successor. At most m successors are possible with k refreshes in flight if and only if
  k is at most m (`SuccessorsBoundedIff`); without overlap a token has one successor.
- Logging out can report success and leave the presented token exchangeable: when the token is stored
  under the legacy hash (`LegacyLogoutRevokesNothing`), and when the first statement fails for a JWT
  stored under the peppered hash, whose retry matches no row (`RetriedLogoutRevokesNothing`). Success
  has ended exactly the record under the hash that was reached (`LogoutEndsTokenIff`).
- `%`, `_` and `\` in a search text are passed to ILIKE as they are. A search is containment if and
  only if the text has none of them (`MetaFindsMore`, `SearchIsContainmentIffLiteral`).
- A page number whose offset exceeds 64 bits wraps around; page 2^62 + 1 with four rows per page shows
  the first page (`HugePageShowsFirstRows`, `PageIsServedIff`).
- Accepting models for a deleted casting can turn it into a closed one. In every run that does not set
  its status it stays deleted if and only if it was not filled, or deleted again after that
  (`DeletedUnlessFilled`, `FilledIff`).
- What is attached next is not always listed last: after deleting the first two of three attachments
  it is not (`DeletesBreakCreationOrder`). It is if and only if every earlier row of the target has a
  sort order below their number, or equal to it and an earlier time (`ListedLastIff`).
- The endpoint that updates an administrator does not validate its request
  (`internal/domain/admin/handler.go:209-240`), although `internal/domain/admin/dto.go:74` restricts the
  role. One request can then make a super-admin (`UnvalidatedUpdateMakesASuperAdmin`); `SupersChangeIff`
  gives the exact condition.
- `AuditFilter` has an entity id and two dates that the query ignores (`FilterIsAppliedIff`).
- The response capture is not always the beginning of what was sent: it misses bytes copied through
  `ReadFrom` and keeps bytes the client did not accept. Whatever the bytes are, it is if and only if
  nothing was copied before 4096 bytes were written and none of the first 4096 was refused
  (`CaptureIsSentIff`). For particular bytes one cause can hide the other (`CopyCanHideARefusal`). A body
  of exactly 4096 bytes is marked as truncated (`CaptureIsBounded`).
- An organization, its employer and agency users and their profiles do not always agree on being
  verified, although a verification makes them (`VerificationMakesThemAgree`): the endpoints that set
  one user's status (`internal/domain/admin/user_handler.go:369-421`,
  `internal/domain/admin/repository.go:680-708`, `internal/domain/admin/moderation.go:238-284`), an update of
  the organization alone (`internal/domain/organization/repository.go:124-138`) and new profiles write one
  table only (`EndpointsUnsettle`). They agree if and only if the last writers of all their rows wrote
  the same (`AgreementIsByLastWriters`); `StepUnsettlesIff` says which step breaks agreement.
  (Profile moderation sends only `verified` or `rejected`. The update of an organization alone has no
  caller, and no Go code writes `users.organization_id`, so staff come from outside this code.)

The code asks for more than the migrations define, which `Schema.dfy` records. There is no table
`reports`, so resolving a report always answers that it was not found; with such a table, suspending
would still always fail, because the enumeration of verification statuses
(`migrations/000012_create_organizations.up.sql:8`) has no `suspended`, and so would deleting users and
castings, which have no column `deleted_at` (`ShippedResolutions`, `SuspensionNeedsItsStatus`). The
theorems about resolutions hold for every schema. The documentation of `GET /castings` names the orders
`pay_asc` and `views`; the code has neither, and the model follows the code.

## Model

| member | source | states |
|---|---|---|
| WindowLimiter.Compact | internal/domain/chat/notification_command_limiter.go:30-36 | compaction over the same backing array yields exactly the order-preserving filter of the stored readings |
| WindowLimiter.UserWindowLimiter.Allow | internal/domain/chat/notification_command_limiter.go:23-45 | on slices that share arrays with their past, one call admits and stores what the value-level limiter says; other keys are untouched |
| WindowLimiter.UserWindowLimiter.Prune | internal/domain/chat/notification_command_limiter.go:30-36 | the key's readings are filtered in place, the contents of all other keys stay |
| WindowLimiter.UserWindowLimiter.Append | internal/domain/chat/notification_command_limiter.go:42 | append within the capacity or into a fresh array never disturbs another key |
| WindowLimiter.UserWindowLimiter.constructor | internal/domain/chat/notification_command_limiter.go:15-21 | a new limiter has no readings |
| WindowLimiter.StoredAgreesWithAdmitted | internal/domain/chat/notification_command_limiter.go:30-44 | nothing later than every cutoff used so far was ever forgotten |
| WindowLimiter.WindowSafety | internal/domain/chat/notification_command_limiter.go:23-44 | with clock skew at most d, each interval (t-(window-d), t] of every run holds at most max(limit,0) admitted calls |
| WindowLimiter.WaitBoundsSkew | internal/domain/chat/notification_command_limiter.go:24-28 | the longest wait for the mutex bounds the skew of the readings |
| WindowLimiter.BoundedWaitWindowSafety | internal/domain/chat/notification_command_limiter.go:24-44 | window safety from a bound on the wait for the mutex alone |
| WindowLimiter.OvertakenIsUnsafe | internal/domain/chat/notification_command_limiter.go:24-44 | for every limit of at least two, an overtaken call puts limit + 1 admissions into a window not shortened enough |
| WindowLimiter.SingleAdmissions | internal/domain/chat/notification_command_limiter.go:30-44 | with a limit of one, admissions are a window apart whatever the order of readings |
| WindowLimiter.ShortenedWindowSafeIff | internal/domain/chat/notification_command_limiter.go:23-44 | exactly which shortened windows are safe in all runs of a given clock skew |
| WindowLimiter.FullWindowSafeIff | internal/domain/chat/notification_command_limiter.go:23-44 | the full window is safe if and only if the limit is at most one, there is no skew, or the window is empty |
| WindowLimiter.WaitingWindowSafeIff | internal/domain/chat/notification_command_limiter.go:24-28 | the same in terms of the longest wait for the mutex |
| WindowLimiter.PruningRefinesFullHistory | internal/domain/chat/notification_command_limiter.go:30-44 | with readings in order, the limiter admits exactly what one that forgets nothing admits |
| WindowLimiter.StoredWithinAdmitted | internal/domain/chat/notification_command_limiter.go:30-44 | whatever the order of readings, what is stored was admitted |
| WindowLimiter.DenialIsJustified | internal/domain/chat/notification_command_limiter.go:37-40 | a denied call finds limit admissions later than its cutoff in the full history |
| WindowLimiter.StoredIsBounded | internal/domain/chat/notification_command_limiter.go:37-43 | never more than max(limit,0) readings are stored for a key |
| AuthStore.RecordsAreWriteOnce | internal/domain/auth/refresh_token_repository.go:33-71 | in every interleaving of statements a token record keeps owner, expiry and unused state, and its revocation time is written once |
| AuthStore.Store.CreateUser | internal/domain/auth/service.go:157-178 | a user is inserted unless its id or email exists; a violation of the unique email is told from other errors |
| AuthStore.Store.Upsert | internal/domain/auth/verification_code_repository.go:33-46 | a new code replaces the old one with no attempts and unused |
| AuthStore.Store.Increment | internal/domain/auth/verification_code_repository.go:61-73 | the attempts of the record grow by one and are returned; a missing record is an error |
| AuthStore.Store.Invalidate | internal/domain/auth/verification_code_repository.go:75-87 | the record is marked used |
| AuthStore.Store.CreateToken | internal/domain/auth/refresh_token_repository.go:33-40 | a token record is inserted unrevoked and unused unless its hash exists |
| AuthStore.Store.RevokeByTokenHash | internal/domain/auth/refresh_token_repository.go:61-65 | only an unrevoked record with the hash is revoked; success does not say whether there was one |
| AuthStore.Store.RevokeAllByUserId | internal/domain/auth/refresh_token_repository.go:67-71 | exactly the unrevoked records of the user are revoked |
| Auth.Service.RegisterUser | internal/domain/auth/service.go:133-195 | every branch and every failing statement, and an email taken between lookup and insert |
| Auth.Service.RequestVerificationCode | internal/domain/auth/service.go:377-410 | a verified user gets no code; otherwise the code is replaced |
| Auth.Service.ConfirmVerificationCode | internal/domain/auth/service.go:412-455 | expired, used, exhausted, wrong and right codes, with every statement possibly failing |
| Auth.Service.GenerateTokens | internal/domain/auth/service.go:562-606 | one record is added for the hash of the returned token, or nothing changes |
| Auth.Service.LoginUser | internal/domain/auth/service.go:293-334 | order of checks, and one minted token on success |
| Auth.Service.RefreshToken | internal/domain/auth/service.go:463-528 | both branches of the source, with the legacy hash, as one function of the tables |
| Auth.Service.LogoutUser | internal/domain/auth/service.go:531-548 | which record is revoked and what is answered, including the legacy hash |
| Auth.MintedTokensAreOpaque | internal/domain/auth/service.go:629-639 | a hexadecimal token is never taken for a JWT |
| Auth.MintedTokensAreDistinct | internal/domain/auth/service.go:624-635 | different random bytes are stored under different hashes |
| Auth.HexOfByte | internal/domain/auth/service.go:629-635 | two lower-case digits a byte, the high one first |
| AuthAnswers.RequestAnswers | internal/domain/auth/service.go:377-410 | the condition for each answer, and the record a sent code leaves: no attempts, unused, 300 seconds |
| AuthAnswers.RegisterAnswers | internal/domain/auth/service.go:133-195 | the condition for each answer and what each failure leaves; a user can be stored though the code was not |
| AuthAnswers.ConfirmAnswers | internal/domain/auth/service.go:412-455 | the condition for each answer, with the cap of five, and when the flags are set |
| AuthAnswers.ConfirmLeaves | internal/domain/auth/service.go:412-455 | when an attempt is counted and when the record is closed; no other record changes |
| AuthAnswers.LoginAnswers | internal/domain/auth/service.go:293-334 | the condition for each answer, and the one record a success adds |
| AuthAnswers.FindMeans | internal/domain/auth/service.go:480-509 | which stored hash a token stands for |
| AuthAnswers.RefreshAnswers | internal/domain/auth/service.go:495-527 | the answer by the record found: revoked, used, expired, not the claims' or usable |
| AuthAnswers.RefreshRefusals | internal/domain/auth/service.go:463-509 | empty, unsigned and unknown tokens are refused and change nothing |
| AuthAnswers.RefreshLeaves | internal/domain/auth/service.go:495-520 | exactly which stored records a refresh revokes |
| AuthAnswers.RefreshStores | internal/domain/auth/service.go:562-595 | exactly which record a refresh adds, for the same user and 604800 seconds |
| AuthAnswers.LogoutAnswers | internal/domain/auth/service.go:531-548 | the condition for each answer |
| AuthLifetimes.TokensExpireAfterAWeek | internal/domain/auth/service.go:574 | in every run a token issued at t is stored with the expiry t + 604800 |
| AuthLifetimes.StepEndsIff | internal/domain/auth/service.go:463-548 | exactly which operation revokes a token |
| AuthLifetimes.AliveTokenIsExchangedIff | internal/domain/auth/service.go:504-574 | in every run that has not ended it, a token issued at t by a login or a refresh can be exchanged if and only if now <= t + 604800 |
| AuthLifetimes.FreshTokenIsExchangedIff | internal/domain/auth/service.go:504-574 | the same for the token an operation just answered with |
| AuthLifetimes.SentCodeVerifiesIff | internal/domain/auth/service.go:391-452 | after a request answered Sent at t, a confirm verifies if and only if it has that code and now <= t + 300 |
| AuthLifetimes.RegisterSucceedsIff | internal/domain/auth/service.go:133-195 | a new id registers if and only if the email is new, and the user is stored unverified |
| AuthLifetimes.RegisteredCodeVerifiesIff | internal/domain/auth/service.go:187-452 | after a registration answered Done at t, its code verifies for 300 seconds |
| AuthLifetimes.WrongGuessLeavesCode | internal/domain/auth/service.go:435-445 | four wrong guesses leave the code usable, the fifth closes it |
| AuthLifetimes.NewUserGetsIn | internal/domain/auth/service.go:133-606 | register, confirm in time, log in: the service issues a token for a week |
| TokenChains.ExchangeExtendsChains | internal/domain/auth/service.go:501-527 | revoking the last token of a chain and minting its successor keeps every chain a path with one live end |
| TokenChains.EnterExtendsChains | internal/domain/auth/service.go:562-606 | a new token starts a chain or follows the last token of one |
| TokenChains.RevokingKeepsChains | internal/domain/auth/refresh_token_repository.go:61-71 | revoking any records keeps the chains |
| AuthRuns.ChainsHold | internal/domain/auth/service.go:463-528 | the chain invariant holds in every reachable state |
| AuthRuns.OneSuccessorPerToken | internal/domain/auth/service.go:463-528 | in every run each token is minted into a chain along which a token has at most one child |
| AuthRuns.RootsAreLogins | internal/domain/auth/service.go:293-334 | the tokens that start a chain are, user by user, exactly as many as the logins |
| AuthRuns.OneLiveTokenPerLogin | internal/domain/auth/service.go:463-606 | at most one token of a login's chain is unrevoked, namely the last; a chain has one user and no token marked used |
| AuthRuns.RefreshKeepsCount | internal/domain/auth/service.go:504-527 | a successful refresh leaves every user's number of unrevoked tokens unchanged |
| AuthRuns.ActiveAtMostLogins | internal/domain/auth/service.go:463-528 | a user never has more unrevoked tokens than logins so far |
| AuthRuns.ReplayEndsAllSessions | internal/domain/auth/service.go:495-515 | a revoked, used or expired token is refused, ends all sessions of its user and touches nobody else |
| AuthRuns.RevokedForever | internal/domain/auth/refresh_token_repository.go:61-71 | a revoked record never changes again in any run |
| AuthRuns.ExchangedTokenNeverWorksAgain | internal/domain/auth/service.go:501-515 | an exchanged opaque token is refused for ever, after any run and whatever fails, and ends the user's sessions |
| AuthRuns.ExchangedRecordNeverWorksAgain | internal/domain/auth/service.go:474-515 | the same for any token whose later lookup finds its record, if any |
| AuthRuns.RefreshInRunSucceedsIff | internal/domain/auth/service.go:504-527 | in every run an opaque token can be exchanged if and only if its record is there, unrevoked and unexpired, and nothing fails: its user always exists |
| AuthRuns.LoginInRunSucceedsIff | internal/domain/auth/service.go:293-334 | in every run a login succeeds if and only if the password is that of the email's user, a confirm verified them, and nothing fails |
| AuthRuns.FlaggedIff | internal/domain/auth/service.go:425-449 | in every run a user is verified if and only if some confirm matched a live code and its statements succeeded |
| AuthRuns.ConfirmSucceedsIff | internal/domain/auth/service.go:412-455 | the exact condition under which a confirm verifies, and that it uses up the code |
| AuthRuns.VerifiedOnlyOnce | internal/domain/auth/service.go:383-452 | after a user was verified, no run accepts a code from them again |
| AuthRuns.LogoutEndsTokenIff | internal/domain/auth/service.go:536-547 | whatever fails, success has revoked exactly the record under the hash that was reached, and any other answer changed nothing |
| AuthRuns.LegacyLogoutRevokesNothing | internal/domain/auth/service.go:536-544 | a stored legacy token for which logging out answers success and changes nothing |
| AuthRuns.RetriedLogoutRevokesNothing | internal/domain/auth/service.go:536-544 | a stored JWT whose logout fails, is retried under the legacy hash, answers success and changes nothing |
| AuthRuns.TokensBelongToConfirmedUsers | internal/domain/auth/service.go:316-333 | in every reachable state tokens belong to existing users whose two flags were set by a confirm that matched a live code |
| AuthRuns.StepOnUsers | internal/domain/auth/service.go:425-452 | one operation sets flags only through a matching confirm and clears none |
| AuthRuns.StepOnEmails | internal/domain/auth/service.go:135-167 | users are only added, each under an email of its own |
| AuthRuns.VerifiedUsersGetNoNewCode | internal/domain/auth/service.go:383-394 | after verification, no run issues the user another code |
| AttemptBound.CountsHold | internal/domain/auth/verification_code_repository.go:33-73 | the attempts of the current code bound the wrong guesses counted against it, in every interleaving |
| AttemptBound.AttemptsAreBounded | internal/domain/auth/service.go:417-445 | at most 4 + k wrong guesses are counted against one code with at most k confirms in flight |
| AttemptBound.SequentialCap | internal/domain/auth/service.go:430-443 | one confirm at a time, the cap is five |
| AttemptBound.BoundIsReached | internal/domain/auth/service.go:417-445 | for every code and every k some interleaving counts 4 + k wrong guesses |
| AttemptBound.CapHoldsIff | internal/domain/auth/service.go:417-445 | the cap of five holds in all interleavings if and only if at most one confirm of the code is in flight |
| AttemptBound.ConfirmReadsThenCounts | internal/domain/auth/service.go:412-455 | the service's confirm is such a read and count, perhaps with an invalidation |
| AttemptBound.RequestUpserts | internal/domain/auth/service.go:377-410 | a request answered Sent is an upsert of a code for 300 seconds; any other changes no code |
| RefreshRace.RefreshIsReadRevokeMint | internal/domain/auth/service.go:504-527 | the service's refresh of a usable token is a read, a revocation and an insert |
| RefreshRace.LoginIsLoggedIn | internal/domain/auth/service.go:293-334 | a login that issues a token is an insert of a record for 604800 seconds |
| RefreshRace.LogoutIsLoggedOut | internal/domain/auth/service.go:531-548 | a logout is a revocation under one of the token's hashes, or changes nothing |
| RefreshRace.RefusalIsRevokedAll | internal/domain/auth/service.go:495-515 | a refresh with a record that must not be exchanged revokes all tokens of its user |
| RefreshRace.SuccessorsAreBounded | internal/domain/auth/refresh_token_repository.go:61-65 | in every interleaving a token has at most as many successors as refreshes of it were in flight at once |
| RefreshRace.AfterMints | internal/domain/auth/service.go:505-527 | n overlapping refreshes of one token mint n successors |
| RefreshRace.SuccessorsBoundedIff | internal/domain/auth/service.go:504-527 | m successors are the bound in all interleavings with k refreshes in flight if and only if k is at most m |
| Ilike.LiteralSearchIsContainment | internal/domain/casting/repository.go:299-306 | a pattern around a literal text finds exactly the texts that contain it |
| Ilike.PatternMeans | internal/domain/casting/repository.go:263-267 | what `_`, an escaped and an ordinary character of a pattern match |
| Ilike.MetaFindsMore | internal/domain/casting/repository.go:263-267 | a text with a metacharacter finds something that does not contain it |
| Ilike.SearchIsContainmentIffLiteral | internal/domain/admin/user_handler.go:242-247 | search is containment if and only if the search text is literal |
| Sql.Append | internal/domain/casting/repository.go:263-267 | appending a condition and its argument narrows the meaning by exactly that condition |
| Sql.ExtraArguments | internal/domain/casting/repository.go:342-347 | arguments for LIMIT and OFFSET leave the meaning of the clause alone |
| Sql.Push | internal/domain/casting/repository.go:263-306 | the next placeholder always denotes the argument just appended |
| CastingSearch.Compile | internal/domain/casting/repository.go:249-320 | for every filter the clause is accepted and TRUE of exactly the wanted rows, NULL columns included, every placeholder bound |
| CastingSearch.StartWithStatus | internal/domain/casting/repository.go:250-261 | deleted castings are never shown; active is the default |
| CastingSearch.AddPayMin | internal/domain/casting/repository.go:269-273 | an open upper end of the pay range restricts nothing |
| CastingSearch.AddQuery | internal/domain/casting/repository.go:299-306 | title or description, one argument for both |
| CastingSearch.AddTagsAgain | internal/domain/casting/repository.go:308-318 | the repeated tags condition asks for nothing new |
| CastingSearch.WantedWithLiteralTexts | internal/domain/casting/repository.go:250-318 | with literal texts, a search shows exactly the castings with every property asked for, field by field |
| Queries.OrderSorts | internal/domain/casting/repository.go:329-338 | the ordered result is sorted for any total preorder |
| Queries.ResultsAreTheRowsAskedFor | internal/domain/casting/repository.go:322-354 | the result holds each row asked for as often as the table does, and no other, in order |
| Queries.SelectedIsFiltered | internal/domain/casting/repository.go:320-327 | executing a clause that means p selects exactly the rows of p |
| Queries.CountAndPage | internal/domain/casting/repository.go:322-354 | the count is the size of the result the page is cut from |
| CastingList.OrdersAreTotal | internal/domain/casting/repository.go:329-338 | each of the orders, with NULL first or last, is a total preorder |
| CastingList.NewestFirst | internal/domain/casting/repository.go:337 | urgent before not urgent, then later before earlier |
| CastingList.HighestPayFirst | internal/domain/casting/repository.go:333 | the higher amount first, castings without one last |
| CastingList.MostViewedFirst | internal/domain/casting/repository.go:335 | more views first, then more responses |
| CastingList.LatestFirst | internal/domain/casting/repository.go:427 | later before earlier, and NULL keys first |
| CastingList.OwnListHolds | internal/domain/casting/repository.go:414-437 | exactly the creator's castings that are not deleted |
| Sql.NumericOrder | internal/domain/casting/repository.go:269-279 | finite numbers compare as reals, between the infinities and below NaN |
| Sql.TruthTables | internal/domain/casting/repository.go:320 | AND and OR under three-valued logic |
| Sql.Comparisons | internal/domain/casting/repository.go:254-318 | what each comparison yields, NULL and operands of different types included |
| CastingList.Repository.List | internal/domain/casting/repository.go:249-355 | the window at the computed offset of the ordered wanted rows, and their number; an error for a failing query or a negative offset |
| CastingList.Repository.ListByCreator | internal/domain/casting/repository.go:414-437 | the same for a creator's castings, newest first |
| CastingList.HandleList | internal/domain/casting/handler.go:385-423 | the page asked for, from 1 on, and the limit asked for, from 1 to 100, otherwise 1 and 20; an error for a failing query |
| CastingList.HandleListMy | internal/domain/casting/handler.go:437-480 | the same for the creator's own castings |
| CastingList.AnswerHolds | internal/domain/casting/handler.go:385-423 | such an answer row by row: item i is row (page - 1) * limit + i of the result, with page count and both flags |
| CastingList.WrappedAnswerHolds | internal/domain/casting/repository.go:341-354 | the same for any page number: the window at the wrapped offset, refused if that is negative |
| CastingList.AnswersAreTheWholeResult | internal/domain/casting/handler.go:385-423 | the answers to the requests for pages 1, 2, ... up to the last together are the whole result |
| CastingList.SearchPagesPartition | internal/domain/casting/handler.go:385-423 | pages 1..pages together list every wanted casting once and in order |
| Paging.Pagination | internal/domain/casting/handler.go:385-396 | a given page from 1 on is the page and a given limit from 1 to 100 the limit; otherwise 1 and 20 |
| Paging.WindowHolds | internal/domain/casting/repository.go:342-347 | LIMIT and OFFSET, row by row |
| Paging.PageCountIs | internal/domain/casting/handler.go:411-414 | the page count is the quotient rounded up |
| Paging.Metadata | internal/domain/casting/handler.go:411-423 | pages is the ceiling of total / limit; has-next holds if and only if the next page is non-empty |
| Paging.Wraps | internal/domain/casting/repository.go:341 | the computed offset is congruent to the true one and fits 64 bits |
| Paging.PagesPartition | internal/domain/casting/repository.go:340-347 | the pages together are the result |
| Paging.EmptyBeyondLast | internal/domain/casting/handler.go:411-422 | a page is empty if and only if it lies beyond the last |
| Paging.PageIsServedIff | internal/domain/casting/repository.go:341 | the exact condition under which the computed offset serves the page |
| Paging.HugePageShowsFirstRows | internal/domain/casting/repository.go:341 | a huge page number wraps around to the first rows |
| Paging.ExistingPagesAreServed | internal/domain/casting/repository.go:341-347 | no existing page is affected by the wrap-around |
| CastingAcceptance.Repository.IncrementAcceptedAndMaybeClose | internal/domain/casting/repository.go:371-398 | the conditional update and its answer, NULL status, NULL limit and a failing statement included |
| CastingAcceptance.Repository.UpdateStatus | internal/domain/casting/repository.go:234-241 | status is overwritten, the counters stay |
| CastingAcceptance.Repository.Update | internal/domain/casting/repository.go:191-232 | an edit writes a status and the other columns, and neither counter; a failing statement writes nothing |
| CastingAcceptance.Repository.SoftDelete | internal/domain/casting/repository.go:243-247 | deletion is a status |
| CastingAcceptance.NeverOvershoots | internal/domain/casting/repository.go:371-398 | in every interleaving accepted stays within required and grows by exactly the successful accepts |
| CastingAcceptance.FullForEver | internal/domain/casting/repository.go:381-383 | a full casting never accepts again, even when reopened |
| CastingAcceptance.AcceptancesFitTheRoom | internal/domain/casting/repository.go:371-398 | a run accepts at most the room there was |
| CastingAcceptance.AcceptsInARow | internal/domain/casting/repository.go:371-398 | of n accepts exactly min(n, room) succeed, and exactly the filling one answers closed |
| CastingAcceptance.DeletedUnlessFilled | internal/domain/casting/repository.go:374-382 | in every run that never sets its status, a deleted casting is deleted at the end if and only if it was not filled, or deleted again after that |
| CastingAcceptance.FilledIff | internal/domain/casting/repository.go:371-398 | it is filled exactly when as many were accepted as there was room for |
| CastingAcceptance.DeletedAfterAccepts | internal/domain/casting/repository.go:374-382 | n accepts in a row leave it deleted if and only if there is room for more |
| CastingAcceptance.AcceptedIff | internal/domain/casting/repository.go:371-398 | the condition for an accept, what it counts and what it answers |
| CastingAcceptance.LastWritersDecide | internal/domain/casting/repository.go:191-247 | over runs the details are those of the last edit and the status that of the last writer, the filling accept included |
| CastingAcceptance.OthersStay | internal/domain/casting/repository.go:208-245 | no statement touches another casting |
| Attachments.Service.Attach | internal/domain/attachment/service.go:35-78 | exactly the uploads before the first missing or unowned one or failing insert are attached, in order |
| Attachments.AttachedUploadsAreOwn | internal/domain/attachment/service.go:50-70 | every row an Attach creates has an upload of the caller's own, the one the request names at that position |
| Attachments.AttachedByAuthors | internal/domain/attachment/service.go:56-58 | in every run every stored attachment was attached by its upload's author |
| Attachments.AttachedIffUnobstructed | internal/domain/attachment/service.go:35-78 | a request gets to its end if and only if its uploads are the caller's, new to the target and nothing fails; then every upload has its row |
| Attachments.StoppedBecause | internal/domain/attachment/service.go:52-72 | which answer a stopped request gives |
| Attachments.Service.Reorder | internal/domain/attachment/service.go:138-145 | the updates before the first failing one |
| Attachments.Service.Delete | internal/domain/attachment/service.go:116-135 | only the author of the upload may detach it; nothing else changes; every statement may fail |
| Attachments.Service.ListByTarget | internal/domain/attachment/service.go:81-96 | a listing of the readable attachments |
| Attachments.ListingOrder | internal/domain/attachment/repository.go:55-65 | ascending sort order, then creation |
| Attachments.ListingMembers | internal/domain/attachment/repository.go:55-65 | a listing names each attachment of the target once and no other |
| Attachments.ReadableListing | internal/domain/attachment/service.go:81-96 | the listing served leaves out exactly the attachments whose upload is gone |
| Attachments.ReorderedBy | internal/domain/attachment/repository.go:84-89 | reordering gives each attachment its last position and touches nothing else |
| Attachments.ReorderThenList | internal/domain/attachment/service.go:137-145 | after reordering all of a target, the only listing is its part of the ids by last occurrence |
| Attachments.OnlyListing | internal/domain/attachment/repository.go:55-65 | distinct sort orders leave one listing |
| Attachments.AttachedInCreationOrder | internal/domain/attachment/service.go:43-78 | a target touched by Attach alone, partial calls included, is numbered 0..n-1 and listed in creation order |
| Attachments.SortOrdersAreContiguous | internal/domain/attachment/service.go:44-70 | the numbering invariant over every run |
| Attachments.NewcomersComeLast | internal/domain/attachment/service.go:44-66 | when every earlier row sorts before the first new one, every listing is one from before followed by the new rows |
| Attachments.ListingWithLate | internal/domain/attachment/repository.go:55-65 | rows of equal keys may come in any order: some listing puts a given one last among them |
| Attachments.ListedLastIff | internal/domain/attachment/service.go:44-66 | exactly when what is attached next is listed last, for any table and any number of rows |
| Attachments.DeletesBreakCreationOrder | internal/domain/attachment/service.go:44-66 | with the first two of three attachments gone the next is not listed last |
| AdminRoles.Service.CreateAdmin | internal/domain/admin/service.go:62-93 | a new record unless the email is taken, even when the lookup failed |
| AdminRoles.Service.UpdateAdmin | internal/domain/admin/service.go:98-130 | the permitted changes, with a missing actor skipping the check |
| AdminRoles.UpdateLeaves | internal/domain/admin/service.go:107-121 | field by field what an accepted update leaves; a refused one changes nothing |
| AdminRoles.UpdateAnswers | internal/domain/admin/service.go:98-123 | the condition for each answer |
| AdminRoles.CreateSucceedsIff | internal/domain/admin/service.go:62-93 | a creation succeeds if and only if email and id are new, and stores the record |
| AdminRoles.RanksInOrder | internal/domain/admin/permissions.go:76-86 | the four ranks, and who can manage whom |
| AdminRoles.OnlySuperTokensManage | internal/domain/admin/middleware.go:128-165 | only an issued super-admin token of an active administrator changes records, and creation takes three roles |
| AdminRoles.SuperTokensManage | internal/domain/admin/routes.go:22-27 | such a request does what the service does |
| AdminRoles.TokensAreIssuedBy | internal/domain/admin/middleware.go:46-62 | a login issues a token with the role of that moment, and nothing else does |
| AdminRoles.SupersChangeIff | internal/domain/admin/service.go:98-123 | exactly which request changes the super-admins |
| AdminRoles.SupersAreFixed | internal/domain/admin/permissions.go:76-86 | over every run of validated requests super-admin records never change and tokens agree with them |
| AdminRoles.ChangedRecordsRankBelow | internal/domain/admin/service.go:99-123 | a changed record ranks strictly below its changer, before and after |
| AdminRoles.UnvalidatedUpdateMakesASuperAdmin | internal/domain/admin/handler.go:209-240 | one unvalidated update makes a super-admin |
| AdminRoles.EmailsStayUnique | internal/domain/admin/service.go:63-84 | no run lets two administrators share an email |
| AdminRoles.Rank | internal/domain/admin/permissions.go:76-81 | only the super-admin has rank 100, and exactly the unknown roles have the lowest, 0 |
| AdminLists.ListAuditLogs | internal/domain/admin/repository.go:219-274 | the count over all but two arguments counts exactly the set the page is cut from |
| AdminLists.ServedRows | internal/domain/admin/repository.go:219-274 | row by row: the i-th row served is the one offset further on in the ordered result, as many as the limit allows, with the size of that result |
| AdminLists.AuditShown | internal/domain/admin/repository.go:227-243 | exactly the entries that match administrator, action and entity type |
| AdminLists.CompileAudit | internal/domain/admin/repository.go:221-243 | the clause means the three filters that are applied |
| AdminLists.FilterIsAppliedIff | internal/domain/admin/repository.go:76-85 | the whole filter is applied if and only if it names no entity and no dates |
| AdminLists.ListReports | internal/domain/admin/repository.go:387-430 | page and total for the status filter, with the wrapped offset; the rows with total zero and an error when the count fails |
| AdminLists.ReportsShown | internal/domain/admin/repository.go:397-403 | all reports, or those of the given status |
| AdminLists.ListUsers | internal/domain/admin/user_handler.go:218-276 | page and total for role and search, the page size standing in for a failed count, an error for a failed page |
| AdminLists.UsersShown | internal/domain/admin/user_handler.go:236-247 | exactly the users of the role whose email contains the literal search text |
| AdminLists.LatestFirst | internal/domain/admin/repository.go:246 | later before earlier, NULL first |
| AdminLists.CompileUsers | internal/domain/admin/user_handler.go:234-247 | the clause means role and email search |
| AdminUsers.Handler.UpdateStatus | internal/domain/admin/user_handler.go:369-422 | exactly the supplied fields and the time stamp change on exactly the row with the id; which answer is given when, a failing statement included |
| AdminUsers.ChangedFields | internal/domain/admin/user_handler.go:387-406 | field by field what an accepted request leaves |
| AdminUsers.AcceptableStatuses | migrations/000012_create_organizations.up.sql:8 | the five statuses the server takes |
| AdminUsers.Build | internal/domain/admin/user_handler.go:384-407 | the assembled items assign the supplied fields and bind their own arguments |
| AdminUsers.Add | internal/domain/admin/user_handler.go:387-391 | the position is one more than the number of arguments throughout |
| AdminUsers.ExecutedChanges | internal/domain/admin/user_handler.go:408-412 | executing the query changes each row as requested |
| Moderation.Database.ResolveReport | internal/domain/admin/service.go:378-453 | the committed tables and the answer for any failing statement and any schema; no transaction stays open |
| Moderation.Database.SoftDeleteEntity | internal/domain/admin/repository.go:525-553 | which statements run for which entity, with the fallback to employer profiles |
| Moderation.Database.Exec | internal/domain/admin/repository.go:505-523 | a statement works on the transaction's own version; one that fails, or asks for what the schema lacks, aborts it |
| Moderation.Database.UpdateUserStatus | internal/domain/admin/repository.go:680-708 | the endpoints that set one user's status, with the columns each writes |
| Moderation.Database.UpdateVerification | internal/domain/organization/repository.go:124-138 | an organization alone, keeping its time when unverified |
| Moderation.Database.CreateEmployer | internal/domain/profile/repository.go:289-294 | a new unverified profile, one per user |
| ModerationRuns.ResolutionIsAllOrNothing | internal/domain/admin/service.go:378-453 | every table unchanged, or the report closed together with its action's effect and nothing else |
| ModerationRuns.ResolutionTakesEffectIff | internal/domain/admin/service.go:378-453 | exactly when a resolution takes effect |
| ModerationRuns.ResolutionAnswers | internal/domain/admin/service.go:378-453 | the condition for each answer of a resolution |
| ModerationRuns.ResolutionWritesReport | internal/domain/admin/repository.go:505-517 | the report is resolved with notes, resolver and time; every other report stays |
| ModerationRuns.ResolutionWritesUsers | internal/domain/admin/repository.go:519-536 | what a suspension and a deletion write, and that nothing else touches users |
| ModerationRuns.ResolutionWritesEntities | internal/domain/admin/repository.go:536-548 | castings, model profiles and, where no model's row matched, employer profiles |
| ModerationRuns.SuspensionNeedsItsStatus | internal/domain/admin/repository.go:519-523 | an enumeration without `suspended` makes every suspension fail and change nothing |
| ModerationRuns.ShippedResolutions | internal/domain/admin/repository.go:432-553 | under the migrations no report can be resolved, and with the table added no suspension and no deletion of a user or casting |
| ModerationRuns.ActionEffect | internal/domain/admin/service.go:400-438 | the statements of an action have the effect of that action |
| Moderation.Database.VerifyOrganization | internal/domain/admin/moderation.go:801-854 | the committed tables and the answer for any failing statement |
| ModerationRuns.VerificationIsAllOrNothing | internal/domain/admin/moderation.go:801-854 | every table unchanged, or exactly the rows of the organization, its staff and their profiles as a verification writes them |
| ModerationRuns.VerificationTakesEffectIff | internal/domain/admin/dto.go:97-99 | exactly when a verification takes effect: four statuses, no failing statement, no refused commit |
| ModerationRuns.VerificationAnswers | internal/domain/admin/moderation.go:801-854 | the condition for each answer of a verification |
| ModerationRuns.VerificationWritesUsers | internal/domain/admin/moderation.go:826-833 | every employer and agency user of the organization gets the status, reviewer, time and texts; every other user stays |
| ModerationRuns.VerificationWritesProfiles | internal/domain/admin/moderation.go:841-845 | the profiles of those users, and no others |
| ModerationRuns.VerificationWritesOrganization | internal/domain/admin/moderation.go:809-819 | the organization's columns, no other organization, and no table other than these three |
| ModerationRuns.VerificationMakesThemAgree | internal/domain/admin/moderation.go:801-854 | a verification that takes effect makes the three tables agree on the requested status |
| ModerationRuns.StepOnUser | internal/domain/admin/repository.go:680-708 | of a user each step writes the status it is said to write and moves nobody |
| ModerationRuns.JudgingWrites | internal/domain/admin/moderation.go:265-278 | the columns each endpoint for one user writes |
| ModerationRuns.CertifyingWrites | internal/domain/organization/repository.go:124-138 | the columns an update of an organization alone writes |
| ModerationRuns.EnrollingWrites | internal/domain/profile/repository.go:289-294 | when a profile is stored, and that it is unverified |
| ModerationRuns.AgreementIsByLastWriters | internal/domain/admin/moderation.go:801-854 | in every run of everything that writes a status, the three tables agree if and only if the last writers of their rows do |
| ModerationRuns.StepUnsettlesIff | internal/domain/admin/moderation.go:238-284 | exactly which step makes tables that agree disagree |
| ModerationRuns.EndpointsUnsettle | internal/domain/admin/user_handler.go:396-412 | setting one staff member's status to another than the organization's loses agreement under the shipped schema |
| CommaList.ParseStringSlice | internal/config/config.go:161-177 | the scan returns the non-empty pieces between the commas |
| CommaList.JoinClauses | internal/domain/admin/user_handler.go:423-432 | the loop joins with the separator |
| CommaList.ParseUndoesJoin | internal/config/config.go:161-177 | parsing a joined list of non-empty comma-free strings returns the list |
| CommaList.SplitUndoesJoin | internal/config/config.go:165-175 | splitting undoes joining, empty pieces included |
| CommaList.JoinUndoesSplit | internal/config/config.go:165-175 | the pieces are comma-free and join to the text |
| CommaList.JoinOfParseIsStable | internal/config/config.go:161-177 | join after parse is a fixed point |
| ResponseCapture.ResponseWriter.Write | internal/middleware/logger.go:113-129 | status, header flag, bounded copy and forwarding of one write |
| ResponseCapture.CaptureIsBounded | internal/middleware/logger.go:113-141 | the body is the first 4096 bytes of everything written; the marker appears if and only if at least 4096 were |
| ResponseCapture.CaptureIsWhatWasSent | internal/middleware/logger.go:113-129 | without early copies and early refusals the capture is the beginning of what was sent |
| ResponseCapture.CaptureIsSentIff | internal/middleware/logger.go:113-179 | for every history of calls, whatever the bytes, if and only if nothing was copied or refused early |
| ResponseCapture.SomeBytesShow | internal/middleware/logger.go:113-179 | every early copy and every early refusal shows for some bytes |
| ResponseCapture.CopyCanHideARefusal | internal/middleware/logger.go:113-179 | one refused byte and one like it copied go unnoticed |
| ResponseCapture.CaptureIsSentIffNothingCopied | internal/middleware/logger.go:174-179 | below 4096 fully written bytes the capture is what was sent if and only if nothing was copied |
| ResponseCapture.CaptureIsSentIffNothingRefused | internal/middleware/logger.go:119-128 | without copies, if and only if no write was short |
| ResponseCapture.LoggedStatus | internal/middleware/logger.go:90-111 | the last status is logged, raised to 500 by a panic |
| ResponseCapture.WriteSetsStatus | internal/middleware/logger.go:113-117 | a write under no status sets 200 |
| ResponseCapture.HeaderWrittenIff | internal/middleware/logger.go:107-117 | the header counts as written after the first write or status |
| ResponseCapture.ResponseWriter.BodyPreview | internal/middleware/logger.go:131-141 | the kept body with its marker |

## Left out

- One operation reads the clock once; the several readings of one call are taken to be equal. Times are
  integers: seconds in `Auth.dfy`, any unit elsewhere.
- Hashing is an injective constructor; password verification is equality; JWT signatures are checked
  outside the model, which receives the claims.
- Random bytes and fresh ids are inputs; inserting an id or hash that exists fails.
- The text of queries: a WHERE clause is a tree of conditions and an UPDATE a list of items, with numbered
  arguments. SQL types matter only as far as operands of different types are rejected.
- The order of rows with equal keys: paging is proved for a fixed table and the table's own order
  between equal rows; listing attachments allows any order.
- Isolation between transactions: a transaction and a service operation run alone, except where
  `AuthStore.RecordsAreWriteOnce`, `AttemptBound.dfy` and `RefreshRace.dfy` interleave statements.
- Normalisation of email addresses, `ensureProfileExists`, `RegisterAgency`, photo-studio and email queues,
  password reset: other components.
- Metadata, file names and URLs of attachments; they are copied.
- Statements of `UpdateAdmin` interleaved with another update of the same record, last-login times, avatars
  and the audit log written after an operation, which cannot fail it.
- Which database error a failing statement reports: every failing statement is one kind of failure, except
  the unique email of a registration. Constraint checks on edited castings are such failures.
- Users, organizations and profiles that appear, move or disappear while moderation runs, other than new
  employer profiles; a NULL status.
- Query parameters that do not parse are absent values; the texts of numbers are not modelled.
- `ResponseCapture.LoggedStatus`: assumes no status code is zero, which the Go server rejects anyway.
- Handlers' JSON decoding, routing, permission tables, dashboards, subscriptions, payments, chat and
  WebSocket delivery: plumbing or other components.
