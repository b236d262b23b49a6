# Stackhouse service logic: a Dafny model and its proofs

Stackhouse keeps its service state in Postgres tables and a few in-memory maps.  This project
models the parts of that logic that have an exact specification once a table is a map or a
sequence and the clock is a number, and proves what holds over every input, every run and every
interleaving.  `dafny verify dfyconfig.toml` checks everything.

| files | what they model |
|---|---|
| `JwtSessions`, `JwtSafety`, `JwtSubjects`, `JwtService` | token pairs: issue, verify, rotate, revoke, revoke-all, cleanup, restart |
| `Experiments`, `AssignmentProtocol` | weighted variant assignment, and the select / insert / re-select race under it |
| `RateLimiter` | the in-memory token bucket |
| `SqlLexer`, `SqlGuard`, `SqlStandard` | the two raw-SQL scanners, the statement filter, and their literals against standard ones |
| `PgTypes`, `Inference`, `InferenceLaws`, `InferencePatterns` | column types, their join, schema inference over batches, and the string patterns |
| `Entitlements`, `BillingStore`, `PurchaseRuns` | purchases, subscriptions, and the access they give |
| `PhoneOtp`, `OtpLimits`, `OtpSends`, `OtpAttained` | one-time codes: send throttle, attempt cap, and their product |
| `RbacCells`, `Rbac`, `RbacRows`, `RoleService` | how the role tables' columns are decoded, role inheritance, the access decision, and the role cache |
| `Proration` | plan changes and truncating division |
| `Audiences` | audience rules and version order |
| `Wrappers` | `Option` and `Result` |

A service whose methods update fields is a class; each method is proved equal to a step of a
specification function, and the theorems are about runs of those steps.  Ghost history (tokens
issued, first revocations, exchanges, counted guesses) is kept beside the state and never read by
the code.

## What turned out to be false, and when it holds

- **Retention.** Cleanup forgets revocations after 90 days.  `revoked_at` has sub-second
  resolution while `exp` is floored to a second and accepted through the end of that second, so a
  lifetime of exactly 90 days is already too long: revocation is permanent if and only if both
  lifetimes are strictly below 90 days (`JwtSafety.RevocationPermanence`), and refresh tokens are
  single-use if and only if theirs is (`JwtSafety.RotationGuarantees`).
- **Revoke-all.** Session rows expire at the exact instant, refresh claims only at the end of that
  second.  If cleanup runs in between, revoke-all no longer finds the row and the refresh token is
  accepted until the second is over.  `JwtSafety.RevokeAllCompleteness` gives the exact condition
  for both kinds of token over all runs, `JwtSafety.RevokeAllMissesExactly` tells call by call
  which tokens are missed (those accepted at the call and named by no session row), and
  `JwtSafety.SurvivorOutlivedItsSession` bounds what can survive.
- **Experiment replacement.** Agreement between callers is broken by replacing the experiment's
  variants, and only by that: two calls for one customer return the same variant if and only if
  the experiment was not replaced between their returns (`AssignmentProtocol.AgreeUnlessReplaced`;
  concrete runs in `AssignmentProtocol.ReplacementBreaksAgreement` and
  `AssignmentProtocol.ReplacementLosesTheRow`).
- **Line comments.** Inserting a line comment between two lexical items is invisible if and only
  if no dash stands right before it (`SqlLexer.LineCommentVanishes`); block comments need no
  condition.  After a dash it changes the keyword exactly if it joins two words, and hides a second
  statement exactly if the dash was the only sign of it (`SqlGuard.LineCommentAfterDash`).
- **Latest expiry.** The comment in `src/billing/entitlements.rs` speaks of the active subscription
  with the latest expiry.  One that never expires counts as earliest: it is passed over while any
  dated one is active (`Entitlements.PickIsLatest`, `Entitlements.LifetimeIsPassedOver`).
- **Grace periods.** Only the picked subscription's grace period counts
  (`Entitlements.GraceOfTheOthersIsIgnored`).
- **Lifetime purchases.** A purchase without expiry keeps the row's old period end, so it can leave
  the row "active" and the entitlement inactive (`PurchaseRuns.LifetimePurchaseMayGrantNothing`;
  exact condition in `PurchaseRuns.AccessIsTheCoalescedEnd`).
- **Stale redeliveries.** The period ends at the expiry delivered last, not at the latest one, so
  delivering an old purchase again can shorten the period and end access
  (`PurchaseRuns.PeriodEndIsTheLastDelivered`; exact condition in
  `PurchaseRuns.RedeliveryMovesTheEnd`).
- **Account lockout.** The header of `src/auth/phone_otp.rs` speaks of a lockout after five failed
  attempts.  The code locks a code, not an account: fifty wrong guesses in 900 seconds are
  possible (`OtpAttained.FiftyAreReached`) and are the maximum (`OtpLimits.GuessesPerWindow`).
- **Two codes in one second.** The newest code is selected by whole seconds, so of two codes sent in
  the same second either may be compared.  The right code is sure to log in if and only if every
  other open code of its second has the same hash and attempts left (`OtpLimits.FreshCodeLogsIn`);
  otherwise it may count as wrong or be refused (`OtpLimits.RightCodeMayBeRefused`).
- **Refreshing.** Both tokens are revoked before the user's row is read.  If that query fails, the
  caller gets an error and the login is over: no refresh token of it is ever accepted again
  (`JwtSafety.AbortedRotationEndsTheLogin`).  The query asks for a column `roles` and binds the id as
  text, while the table as `src/auth/mod.rs` declares it has no such column and an integer id, so
  with that table every refresh ends this way.
- **Backslashes in literals.** The scanners let a backslash escape a single quote; with
  standard-conforming strings it does not.  Both cut a text at the same places if and only if no
  single-quoted literal has its first quote right after an odd run of backslashes
  (`SqlStandard.ReadersAgree`; `SqlStandard.EscapedQuote` is a text that is one literal to the
  scanners and has a second statement otherwise).
- **Integers.** The header of `src/inference.rs` promises that no data is lost.  Every integer is
  typed BIGINT, and a column holds its integers if and only if none is above 2^63 - 1
  (`InferenceLaws.BigIntColumns`, `InferenceLaws.OneTooLarge`).
- **Fail closed.** The header of `src/billing/audiences.rs` says that typos must never widen an
  audience.  Unknown fields and operators do fail closed (`Audiences.TyposFailClosed`).  A value that
  does not fit (missing, no list for `in` or `not_in`, or of a type the field never has) does so for
  `eq` and `in`, and admits everybody who has the field for `neq` and `not_in`
  (`Audiences.MisfitValue`, with two such slips in `Audiences.SlipsAdmitEverybody`); both happen if
  and only if the rule names no value that the field can have (`Audiences.UnmatchableRules`).  Under
  an ordering operator a value of the wrong type admits everybody or nobody
  (`Audiences.MisfitOrdering`).
- **Access decisions.** `role_ids` is a JSONB column, which the store delivers as a JSON value, and
  `can` reads it as if it were text.  A list held as a JSON value is read as empty, so a user
  whose rows all hold `role_ids` as JSON lists is denied every request (`RbacRows.AssignedButDenied`,
  `RbacRows.DeniedWithoutText`).  `can` decides membership by what the rows say if and only if every
  role id listed for the user is also listed as JSON text within a string
  (`RbacRows.CanDecidesMembership`).
- **Role cache.** Loading decodes `permissions` and `inherits_from` in the same way, and the BOOLEAN
  `is_system` too, so roles come back from a restart without permissions, parents and flag.  The
  loaded cache equals the table if and only if every row is legible: lists empty or held as text, no
  system role, and no id or name that itself parses as a JSON list or object
  (`RbacRows.LoadedCacheIsTheTable`, `RbacRows.CreatedRole`, `RbacRows.LoadedCacheGrantsNothing`).
  Deleting a role drops it from the cache even when the table keeps its row; cache and table agree
  afterwards exactly when no row stays (`RoleService.RbacService.DeleteRole`).

## Model

| member | source | states |
|---|---|---|
| JwtSessions.InvStep | src/auth/jwt_sessions.rs:170-408 | every operation, accepted or refused, keeps the run invariant: dropped revocations are older than the retention, live tokens have their session row, session rows name tokens of their own user, a lineage has one live refresh token |
| JwtSessions.InvRun | src/auth/jwt_sessions.rs:170-408 | the invariant holds at the end of every run from a state that has it |
| JwtSessions.RunExtends | src/auth/jwt_sessions.rs:307-314 | runs only add to the history of issues, revocations and exchanges, and the clock does not go back |
| JwtSafety.RevocationPermanence | src/auth/jwt_sessions.rs:235-314 | in every run a revoked token is never accepted again, if and only if both lifetimes are shorter than the 90 days of retention |
| JwtSafety.RevokedStaysRejected | src/auth/jwt_sessions.rs:361-376 | after an explicit revocation no continuation of the run accepts a token with that identifier |
| JwtSafety.ForgottenRevocation | src/auth/jwt_sessions.rs:395-408 | for a lifetime of 90 days or more, a concrete run in which a revoked token is accepted |
| JwtSafety.RotationGuarantees | src/auth/jwt_sessions.rs:247-304 | single exchange of a refresh token, and at most one usable refresh token per login, each in every run if and only if refresh tokens live less than 90 days |
| JwtSafety.ReplayedExchange | src/auth/jwt_sessions.rs:247-304 | for longer lifetimes, a concrete run with two usable refresh tokens of one login, one of them already exchanged |
| JwtSafety.RevokeAllCompleteness | src/auth/jwt_sessions.rs:317-359 | no token issued before a revoke-all is accepted after it: for access tokens if and only if they live shorter than the session row and the retention, for refresh tokens never for a non-negative lifetime |
| JwtSafety.RevokeAllMissesExactly | src/auth/jwt_sessions.rs:317-359 | for lifetimes within the retention, a token of the user is accepted in some continuation of a revoke-all if and only if it was accepted at the call and no session row named it |
| JwtSafety.SurvivorOutlivedItsSession | src/auth/jwt_sessions.rs:317-359 | a survivor's session had passed its exact expiry before the call, the call did not see it, and it is accepted for less than a second beyond its own lifetime |
| JwtSafety.MissedByRevokeAll | src/auth/jwt_sessions.rs:395-408 | a concrete run in which cleanup drops the session row of a still acceptable token and revoke-all misses it |
| JwtSafety.AcceptanceAfter | src/auth/jwt_sessions.rs:235-359 | after any operation but cleanup and restart a token is accepted exactly if it was, has not expired by then, and was not among the identifiers the operation revokes |
| JwtSafety.RevokedUntilRestart | src/auth/jwt_sessions.rs:307-364 | until the next restart a revoked token is rejected whatever the lifetimes |
| JwtSafety.RevocationIsRecorded | src/auth/jwt_sessions.rs:307-314 | what an operation revokes, and nothing else, enters table and cache; a row that stays keeps its instant |
| JwtSafety.CleanupForgetsExactly | src/auth/jwt_sessions.rs:395-408 | cleanup drops exactly the revocations older than 90 days and the session rows past their expiry |
| JwtSafety.FreshPairIsAccepted | src/auth/jwt_sessions.rs:184-207 | a pair just issued is accepted at once, exactly for lifetimes that are not negative |
| JwtSafety.RotationRetiresThePair | src/auth/jwt_sessions.rs:267-271 | after an exchange neither the old refresh token nor its access token is accepted in any continuation |
| JwtSafety.AbortedRotationEndsTheLogin | src/auth/jwt_sessions.rs:267-280 | if the user's row cannot be read after the pair has been revoked, no continuation accepts any refresh token of that login |
| JwtSafety.AbortedRotationRetiresThePair | src/auth/jwt_sessions.rs:267-271 | neither token of the pair is accepted again after such a failure |
| JwtSafety.EndedLoginStaysEnded | src/auth/jwt_sessions.rs:247-304 | in no continuation does a login without a live refresh token get one again |
| JwtSubjects.LoginIssuesForTheSubject | src/auth/jwt_sessions.rs:170-232 | the pair and the session row of a login carry its user, tenant, device, e-mail and roles, the instant in whole seconds, the lifetimes, and each other |
| JwtSubjects.RotationIssuesForTheSameUser | src/auth/jwt_sessions.rs:273-304 | the pair and row of a rotation carry the user, tenant and device of the exchanged token, with the e-mail and roles read anew, in the same lineage |
| JwtSubjects.LoginKeepsItsUser | src/auth/jwt_sessions.rs:170-304 | in every run all tokens of a login and its rotations are for one user, tenant and device |
| JwtSubjects.RefreshNamesItsAccessToken | src/auth/jwt_sessions.rs:194-203 | in every run a refresh token names an access token issued with it for the same user |
| JwtSubjects.NothingIsRewritten | src/auth/jwt_sessions.rs:209-223 | no operation rewrites a session row or the claims of a token |
| JwtSafety.RevokeAllSparesOthers | src/auth/jwt_sessions.rs:323-346 | revoke-all changes nothing for tokens of any other user or tenant |
| JwtService.JwtSessionService.constructor | src/auth/jwt_sessions.rs:70-95 | a new service has empty tables, cache and history |
| JwtService.JwtSessionService.CreateTokens | src/auth/jwt_sessions.rs:170-232 | issues the pair with floored expiries and stores one session row expiring with the refresh token |
| JwtService.JwtSessionService.Login | src/auth/jwt_sessions.rs:170-232 | a login is one step that opens a new lineage |
| JwtService.JwtSessionService.IsTokenRevoked | src/auth/jwt_sessions.rs:361-376 | true exactly when the cache or the table has the identifier |
| JwtService.JwtSessionService.VerifyAccess | src/auth/jwt_sessions.rs:235-244 | accepts exactly issued, unexpired, unrevoked access tokens; says which check failed, expiry first |
| JwtService.JwtSessionService.RevokeToken | src/auth/jwt_sessions.rs:307-314 | adds the identifier to table and cache, an earlier revocation instant being kept |
| JwtService.JwtSessionService.RefreshTokens | src/auth/jwt_sessions.rs:247-304 | on an accepted refresh token revokes both old tokens, then issues the new pair for the same subject if the user's row can be read and fails with nothing issued if not; otherwise nothing changes |
| JwtService.JwtSessionService.RevokeRows | src/auth/jwt_sessions.rs:328-346 | the loop over any order of rows revokes exactly the rows' identifiers and counts two a row |
| JwtService.JwtSessionService.RevokeAllForUser | src/auth/jwt_sessions.rs:317-359 | revokes both tokens of every session row of the user and tenant and deletes those rows |
| JwtService.JwtSessionService.CleanupExpired | src/auth/jwt_sessions.rs:395-408 | removes exactly the revocations older than 90 days and the expired session rows, and counts them |
| JwtService.JwtSessionService.RestartProcess | src/auth/jwt_sessions.rs:78-92 | a restart empties the cache and nothing else |
| Experiments.AssignVariant | src/billing/experiments.rs:18-45 | the cumulative walk over the list sorted by id picks the first variant reached, else the last, none for an empty list |
| Experiments.SortById | src/billing/experiments.rs:30-32 | the sorted copy is the order by id |
| Experiments.ByIdIsStable | src/billing/experiments.rs:30-32 | variants with the same id keep their list order |
| Experiments.ByIdSorts | src/billing/experiments.rs:30-32 | the order by id is sorted and a permutation of the input |
| Experiments.AssignIgnoresOrder | src/billing/experiments.rs:14-17 | reordering the variants changes nobody's assignment, whatever the weights |
| Experiments.ChoiceIsAnInterval | src/billing/experiments.rs:34-44 | each variant is chosen on exactly one interval of buckets |
| Experiments.NegativeTotalTakesTheRest | src/billing/experiments.rs:36-39 | a running total that turns negative wraps around, so that variant takes every bucket left |
| Experiments.BucketShare | src/billing/experiments.rs:34-44 | for any non-negative weights, the set and number of buckets of every variant, clamped at the end of the bucket space |
| Experiments.ExactSplit | src/billing/experiments.rs:13-15 | weights up to 100: every variant gets exactly 100 buckets a point, the highest id the remainder |
| AssignmentProtocol.InvStep | src/billing/store.rs:1170-1227 | every statement of every caller, and every replacement of an experiment, keeps agreement within an epoch |
| AssignmentProtocol.CallersAgree | src/billing/store.rs:1199-1226 | for any interleaving, variant lists and replacements: calls that return for the same experiment and customer between the same two replacements return the same variant |
| AssignmentProtocol.CallersAgreeWithoutReplacement | src/billing/store.rs:1170-1227 | in a run without replacement of the experiment all callers agree, whenever they return |
| AssignmentProtocol.AgreementIsTheEpoch | src/billing/store.rs:1170-1227 | in any run, two calls that returned for the same experiment and customer return the same variant if and only if they returned in the same epoch |
| AssignmentProtocol.AgreeUnlessReplaced | src/billing/store.rs:1024-1032 | if one call returns at some point of a run and another for the same customer later, they agree if and only if no replacement of the experiment lies between the two returns |
| AssignmentProtocol.RowsAreStable | src/billing/schema.rs:187-194 | a stored assignment is never overwritten or removed while the experiment's variants stay |
| AssignmentProtocol.EpochCountsReplacements | src/billing/store.rs:1024-1032 | the epoch stands still exactly in runs without a replacement |
| AssignmentProtocol.RowIsReturned | src/billing/store.rs:1176-1189 | a caller that finds the row, at once or after a lost race, returns its variant and changes nothing |
| AssignmentProtocol.EmptyListIsRefused | src/billing/store.rs:1191-1197 | without a row an empty variant list is refused and nothing is stored |
| AssignmentProtocol.EveryCallerIsServed | src/billing/store.rs:1170-1227 | in any interleaving without a replacement, if all calls for a customer start with variants the experiment has, every call that ends returns the variant in the customer's row |
| AssignmentProtocol.ThreeStatementsSuffice | src/billing/store.rs:1170-1227 | a call ends after three statements of its own at the latest, whatever others do in between |
| AssignmentProtocol.MissingRowMeansReplacement | src/billing/store.rs:1215-1226 | the second SELECT can only miss the row if the experiment was replaced after the conflict |
| AssignmentProtocol.RaceDoesNotMatter | src/billing/store.rs:1191-1214 | if all callers carry the same variants in any order, whoever wins, the customer gets the variant of the hash bucket |
| AssignmentProtocol.ReplacementBreaksAgreement | src/billing/store.rs:1024-1032 | a concrete run in which a replacement makes two calls of one customer return different variants |
| AssignmentProtocol.ReplacementLosesTheRow | src/billing/store.rs:1215-1226 | a concrete run in which the second SELECT finds no row |
| RateLimiter.Limiter.Check | src/auth/mod.rs:940-958 | refills, clamps, and spends a token exactly if one is there, touching only the key's bucket |
| RateLimiter.SoundRun | src/auth/mod.rs:947-950 | tokens stay between zero and the capacity in every run |
| RateLimiter.GrantsArePaidFor | src/auth/mod.rs:943-957 | grants plus what is left never exceed the starting level plus the rate times the time |
| RateLimiter.BurstBound | src/auth/mod.rs:940-958 | any stretch of any run grants one key at most the capacity plus the rate times the length of the stretch |
| RateLimiter.LevelIsLeastSlack | src/auth/mod.rs:948-950 | the level a request finds is the least that any stretch ending with it leaves of the capacity plus the rate times its length, and some stretch leaves just that |
| RateLimiter.AllowedExactly | src/auth/mod.rs:940-958 | a request is allowed if and only if granting it keeps every stretch that ends with it within the capacity plus the rate times its length |
| RateLimiter.DroppingIdle | src/auth/mod.rs:943-957 | leaving out any denied checks and any checks of other keys changes no other outcome of the key, from any two indistinguishable states |
| RateLimiter.DeniedRequestsAreInvisible | src/auth/mod.rs:952-957 | leaving any denied requests out of a run changes no other outcome |
| RateLimiter.OtherKeysHaveNoEffect | src/auth/mod.rs:943-946 | a key's outcomes are those of the run with only its own requests |
| SqlLexer.EraseAtBoundary | src/api/handlers.rs:1095-1138 | lexing is compositional at every position outside comments, literals and openers |
| SqlLexer.BlockCommentVanishes | src/api/handlers.rs:1096-1102 | a closed block comment between two lexical items leaves the erased text unchanged |
| SqlLexer.LineCommentVanishes | src/api/handlers.rs:1118-1122 | a closed line comment between two lexical items leaves the erased text unchanged if and only if no dash precedes it |
| SqlLexer.PlainTextIsItself | src/api/handlers.rs:1133-1137 | outside quotes and comment openers every character is left as it is |
| SqlLexer.LiteralIsOneMarker | src/api/handlers.rs:1109-1131 | a closed literal in either kind of quotes leaves one marker whatever it holds, an open one swallows the rest |
| SqlLexer.OpenCommentsSwallow | src/api/handlers.rs:1096-1108 | a comment that is not closed swallows the rest |
| SqlGuard.FirstWordIsMaximal | src/api/handlers.rs:1133-1137 | the keyword is the first maximal run of word characters of the erased text |
| SqlGuard.FirstSqlKeyword | src/api/handlers.rs:1087-1145 | returns the upper-cased first word run of the text with comments and literals erased, none if there is no word |
| SqlGuard.HasMultipleStatements | src/api/handlers.rs:1150-1210 | true exactly when, comments erased and literals marked, some semicolon is followed by something other than white space |
| SqlGuard.ValidateRawSql | src/api/handlers.rs:1219-1283 | the verdict is a function of the two scanners' answers, with every rejection reason in the order of the code |
| SqlGuard.AcceptedExactly | src/api/handlers.rs:1219-1283 | accepted if and only if not blank, with a keyword, and: one statement, not destructive and not excluded by a list, or in destructive mode destructive or not excluded, entries being compared up to the case of A to Z |
| SqlGuard.RefusedWith | src/api/handlers.rs:1226-1283 | for each of the six refusals, exactly when it is given |
| SqlGuard.EntriesThatCount | src/api/handlers.rs:1258-1280 | an entry equal to the keyword counts, one that differs in a character that is no letter does not |
| SqlGuard.CommentsChangeNothing | src/api/handlers.rs:1219-1283 | inserting a comment between two lexical items changes neither scanner's answer nor, for any lists and mode, whether the statement is accepted |
| SqlGuard.LineCommentAfterDash | src/api/handlers.rs:1118-1122 | a line comment inserted right after a dash changes the first word if and only if two words meet where the dash was, and the second-statement answer if and only if the dash was the only thing after the semicolons |
| SqlGuard.CommentJoinsWords | src/api/handlers.rs:1133-1137 | for any two words, a line comment after the dash between them makes the keyword their concatenation, as SELECT1 for SELECT-1 |
| SqlGuard.DestructiveModeOnlyAdds | src/api/handlers.rs:1232-1256 | whatever is accepted without destructive mode is a single non-destructive statement and is accepted with it |
| SqlStandard.SameEnd | src/api/handlers.rs:1109-1117 | scanners and standard readers end a single-quoted literal at the same place if and only if its first quote follows no odd run of backslashes |
| SqlStandard.ReadersAgree | src/api/handlers.rs:1095-1138 | both cut a text at the same places if and only if that holds of every single-quoted literal, and then erase it alike |
| SqlStandard.EscapedQuote | src/api/handlers.rs:1109-1117 | a text that is one literal to the scanners and a literal with a second statement to a standard reader |
| PgTypes.PromotionIsAPreorder | src/inference.rs:93-109 | promotion is reflexive and transitive |
| PgTypes.OnlyTextAndJsonbAreEquivalent | src/inference.rs:100-103 | TEXT and JSONB promote to each other and no other two types do |
| PgTypes.CommonTypeIsAssociative | src/inference.rs:112-129 | the common type is associative |
| PgTypes.CommonTypeLaws | src/inference.rs:112-118 | the common type is commutative and idempotent with NULL as identity |
| PgTypes.CommonTypeIsLeastUpperBound | src/inference.rs:93-129 | the common type is a least upper bound for promotion |
| PgTypes.PromotionVersusJoin | src/inference.rs:93-129 | promotion is the order of the join plus one rule: everything promotes to TEXT |
| Inference.InferBatchSchema | src/inference.rs:259-282 | the nested loops compute the declarative batch schema, failing on the first payload that is no object |
| Inference.BatchMeaning | src/inference.rs:252-282 | succeeds exactly when all payloads are objects; columns are exactly the keys with a non-null value, typed by the least type above all their values, nested exactly if some value is, and then JSONB |
| InferenceLaws.OnlyTheSetMatters | src/inference.rs:264-281 | permuting or repeating payloads does not change the schema |
| InferenceLaws.BatchOfConcat | src/inference.rs:267-279 | inferring two halves and merging is inferring the whole, errors included |
| InferenceLaws.TypesClimb | src/inference.rs:272-275 | along any stream a column's type only climbs and changes at most twice |
| InferenceLaws.TwoChangesHappen | src/inference.rs:272-275 | two changes do occur |
| InferenceLaws.BigIntColumns | src/inference.rs:179-186 | a column is BIGINT exactly when all its values are integers, and can hold them exactly when none is above 2^63 - 1 |
| InferenceLaws.OneTooLarge | src/inference.rs:182-183 | the integer 2^63 alone makes a BIGINT column that cannot hold it |
| InferencePatterns.PatternsExclude | src/inference.rs:37-46 | no text matches two of the three patterns, so their order does not matter |
| InferencePatterns.TypeTellsTheKind | src/inference.rs:176-203 | for each type, exactly the values that are given it |
| InferencePatterns.StringColumns | src/inference.rs:187-196 | a column is DATE, UUID or BOOLEAN exactly if all its values are of that one form |
| Entitlements.Resolve | src/billing/entitlements.rs:15-99 | one result per entitlement, in order, computed from its best matching subscription |
| Entitlements.BeatsIsAStrictWeakOrder | src/billing/entitlements.rs:101-121 | relevance is irreflexive and transitive, and so are its ties |
| Entitlements.BestIsFirstMaximum | src/billing/entitlements.rs:27-36 | the loop picks the first maximum in list order among the matching subscriptions, none if nothing matches |
| Entitlements.PickIsLatest | src/billing/entitlements.rs:101-121 | the pick matches, is unexpired if any match is, and has the latest end among those as unexpired as it is, one without end counting as earliest |
| Entitlements.LifetimeIsPassedOver | src/billing/entitlements.rs:25-36 | a concrete subscription without end that is passed over for one that ends soon |
| Entitlements.InfoTells | src/billing/entitlements.rs:49-96 | what is reported about the pick, and what if nothing matches |
| Entitlements.IdentifierIsOfTheProduct | src/billing/entitlements.rs:21 | the reported product is one of the catalogue with the id |
| Entitlements.ActiveMeans | src/billing/entitlements.rs:58-61 | active exactly if some matching subscription is unexpired or the picked one is in grace |
| Entitlements.GraceOfTheOthersIsIgnored | src/billing/entitlements.rs:38-61 | a concrete inactive entitlement with a matching subscription in grace |
| Entitlements.InactiveStaysInactive | src/billing/entitlements.rs:15-99 | with subscriptions fixed, an inactive entitlement is inactive at every later time |
| BillingStore.Store.UpsertSubscriptionFromPurchase | src/billing/store.rs:540-649 | updates the row of (customer, store, original transaction) by coalescing, or inserts it; records the transaction unless it is there |
| BillingStore.Store.ListSubscriptions | src/billing/store.rs:651-668 | the customer's rows in id order |
| BillingStore.RowsOfAscend | src/billing/store.rs:656-662 | a customer's rows come in the order of their ids |
| BillingStore.Store.EntitlementProductMap | src/billing/store.rs:311-337 | every entitlement of the app with exactly its linked products, in order |
| BillingStore.Store.ListProducts | src/billing/store.rs:228-239 | the products of the app |
| BillingStore.Store.ResolveEntitlements | src/billing/store.rs:717-732 | resolves the app's entitlements against the customer's rows and the app's products |
| BillingStore.OnlyOwnProductsAreNamed | src/billing/store.rs:725-731 | a product identifier is reported exactly for products of the app itself |
| PurchaseRuns.OneRowPerKey | src/billing/schema.rs:93 | over any run of purchases keys stay unique and are exactly those there before plus those purchased |
| PurchaseRuns.NewOnlyOnce | src/billing/store.rs:570-622 | a call reports a new subscription exactly when its key was neither stored nor purchased before |
| PurchaseRuns.SharedRows | src/billing/store.rs:546-561 | two purchases share a row exactly if customer and store agree and they name the same transaction, by the original one or else their own |
| PurchaseRuns.SharedTransactions | src/billing/schema.rs:113 | two purchases carry the same transaction exactly if store and transaction id agree |
| PurchaseRuns.FirstTransactionWins | src/billing/store.rs:626-646 | the first purchase of a transaction records it for good, with its dates and flags and the id of its subscription's row |
| PurchaseRuns.KeptTransaction | src/billing/schema.rs:113 | recorded transactions are exactly the stored and purchased ones and are never rewritten |
| PurchaseRuns.ReplayIsIdempotent | src/billing/store.rs:540-649 | delivering a purchase again, at whatever instant, leaves what delivering it only then would have left, and is not reported as new |
| PurchaseRuns.PeriodEndIsTheLastDelivered | src/billing/store.rs:572-580 | after any run of deliveries the stored period end is the expiry delivered last, or the former one if none had an expiry |
| PurchaseRuns.RedeliveryMovesTheEnd | src/billing/store.rs:572-580 | delivering an old purchase again leaves the period end alone if and only if it has no expiry or the one delivered last |
| PurchaseRuns.RowIsItsHistory | src/billing/store.rs:564-622 | after any run product, start and end are those delivered last, status and flags those of the last delivery, and the grace period is untouched |
| PurchaseRuns.ReportedAfterRun | src/billing/store.rs:717-732 | after any run, what is reported of the only matching row: dates, renewal, trial, store and activity as delivered last |
| PurchaseRuns.AccessIsTheLastDelivered | src/billing/store.rs:717-732 | over any run, with no other matching subscription and no grace, access is decided by the expiry delivered last, both ways |
| PurchaseRuns.PurchaseGrantsAccess | src/billing/store.rs:717-732 | after a purchase whose resulting period end lies ahead, every entitlement linked to the row's product, bought now or before, is active, whatever else the customer owns |
| PurchaseRuns.AccessIsTheCoalescedEnd | src/billing/store.rs:572-580 | with no other matching subscription and no grace, access is decided by the coalesced period end, both ways |
| PurchaseRuns.LifetimePurchaseMayGrantNothing | src/billing/store.rs:564-580 | a concrete purchase without expiry that leaves the row "active" and the entitlement inactive |
| PhoneOtp.PhoneOtpService.SendOtp | src/auth/phone_otp.rs:144-199 | inserts a code exactly for a valid phone with fewer than five codes in the last 900 seconds |
| OtpSends.SendsExactly | src/auth/phone_otp.rs:131-181 | a code is sent if and only if the phone has ten to fifteen digits and plus signs and fewer than five codes of its own in the last 900 seconds |
| OtpSends.OtherPhonesHaveNoEffect | src/auth/phone_otp.rs:154-169 | in any run the operations of other phones do not change whether a phone is sent its codes |
| PhoneOtp.PhoneOtpService.SelectLatest | src/auth/phone_otp.rs:242-250 | returns some latest unexpired, unverified code of the phone, none exactly if there is none |
| PhoneOtp.PhoneOtpService.VerifyOtp | src/auth/phone_otp.rs:233-299 | logs in, counts a wrong guess, or refuses, and which of them is decided by the selected code alone |
| OtpLimits.InvRun | src/auth/phone_otp.rs:144-299 | the throttle and attempt invariants hold in every run with a forward clock |
| OtpLimits.CodesPerWindow | src/auth/phone_otp.rs:147-170 | any 900 seconds of any run hold at most five codes for a phone |
| OtpLimits.CodesInAnyStretch | src/auth/phone_otp.rs:147-170 | a stretch of any length holds at most five codes for a phone for every 900 seconds begun |
| OtpLimits.UsesPerCode | src/auth/phone_otp.rs:268-294 | each code absorbs at most five counted wrong guesses and yields at most one login |
| OtpLimits.GuessesInAnyStretch | src/auth/phone_otp.rs:144-294 | a stretch of any length holds at most 25 counted wrong guesses for a phone for every 900 seconds begun, 300 seconds before it included |
| OtpLimits.GuessesPerWindow | src/auth/phone_otp.rs:144-294 | any 900 seconds of any run hold at most fifty counted wrong guesses for a phone |
| OtpLimits.FreshCodeLogsIn | src/auth/phone_otp.rs:243-294 | the right code presented within its five minutes logs in whichever row the query prefers, if and only if every other open code of the phone from the same second has the same hash and attempts left |
| OtpLimits.RightCodeMayBeRefused | src/auth/phone_otp.rs:243-250 | with two open codes of one second the right code may be counted as a wrong guess |
| OtpAttained.FiftyAreReached | src/auth/phone_otp.rs:6-11 | for every valid phone, a run that reaches fifty |
| RoleService.RbacService.CollectPermissions | src/auth/rbac.rs:260-279 | terminates on any graph and adds exactly what the bounded recursion gathers |
| Rbac.GatheredMeans | src/auth/rbac.rs:267-277 | the recursion finds exactly the permissions of the roles within that many inheritance edges, cycles and missing parents included |
| Rbac.FiveEdgesSuffice | src/auth/rbac.rs:267-269 | five edges reach the full transitive closure if and only if a sixth edge adds no role |
| Rbac.SixRolesAreCovered | src/auth/rbac.rs:267-269 | if at most six roles are reachable, five edges give the full transitive closure |
| Rbac.ChainIsCutOff | src/auth/rbac.rs:267-269 | along a chain of roles the last permission is collected exactly when the chain has no more links than the edges allowed, so a seventh role is missed |
| Rbac.AccessMeans | src/auth/rbac.rs:246-257 | on decoded rows, access is granted exactly when a role held within five edges has the permission in one of the three forms |
| Rbac.DoubleStar | src/auth/rbac.rs:253-257 | adding the pair of two stars to any permissions opens exactly the requests that contain a star themselves |
| RbacCells.ReadsOnlyText | src/platform/db.rs:310-316 | a JSONB list is read exactly when it is held as JSON text within a string; held as a JSON value it is read as empty |
| RbacCells.TextIsRead | src/auth/rbac.rs:128-153 | text that parses to a list is read as that list, text that does not parse as the empty one |
| RbacCells.ListedPermission | src/auth/rbac.rs:28-33 | a permission may also be written as the list of its three fields, and as no list of another length |
| RbacCells.WrittenIsHeld | src/auth/rbac.rs:187-196 | the JSON values that are written hold the lists that were given |
| RoleService.RbacService.Can | src/auth/rbac.rs:222-258 | the decision over all assignment rows of the user and tenant as decoded, unknown role ids skipped |
| RbacRows.CanDecidesMembership | src/auth/rbac.rs:238-257 | the decision is the one the rows call for, for every cache and request, if and only if every role id listed for the user is listed as text |
| RbacRows.DeniedWithoutText | src/auth/rbac.rs:239-244 | every request of a user is denied under every cache if and only if no row of the user lists an id as text |
| RbacRows.AssignedButDenied | src/auth/rbac.rs:239-244 | a row whose `role_ids` is a JSON list: the user should have the permission and is denied everything |
| RoleService.RbacService.constructor | src/auth/rbac.rs:60-69 | a new process loads the cache; it agrees with the table if and only if every row is legible |
| RoleService.RbacService.LoadRoles | src/auth/rbac.rs:98-165 | the loop enters every row as decoded under its decoded id, a later row replacing an earlier one |
| RbacRows.LoadedCacheIsTheTable | src/auth/rbac.rs:104-163 | the loaded cache equals the table if and only if every row has its lists empty or as text, a plain id and name, and no system flag |
| RbacRows.LoadedCacheGrantsNothing | src/auth/rbac.rs:128-132 | if all permissions are held as JSON values, a loaded cache grants nobody anything |
| RbacRows.CreatedRole | src/auth/rbac.rs:167-199 | the row of a created role says what was given, and loads as that role if and only if it has neither permissions nor parents and its texts are plain |
| RoleService.RbacService.CreateRole | src/auth/rbac.rs:167-199 | inserts the role in table and cache unless the tenant has the name, and keeps them equal |
| RoleService.RbacService.DeleteRole | src/auth/rbac.rs:292-301 | the cache entry always goes, the row of a system role stays; cache and table stay equal exactly if no row with that id stays |
| RbacRows.DeletedRows | src/auth/rbac.rs:293-298 | the deletion keeps exactly the rows that have another id or are not flagged as non-system |
| Proration.SubscriptionPlans.ChangePlan | src/billing/subscription_plans.rs:229-334 | returns and stores the proration, changes the plan, keeps the period if there is one |
| Proration.TruncDivAlmostAdds | src/billing/subscription_plans.rs:314 | truncating a sum and adding truncations differ by at most one |
| Proration.ProrationIsFair | src/billing/subscription_plans.rs:309-315 | swapping plans negates the proration exactly, it has the sign of the price difference, never exceeds it, and equals it for an unused period |
| Proration.ChangeOnDay | src/billing/subscription_plans.rs:265-315 | on day d of a period of n days the price difference counts for n - d days: all of it on the first, nothing on the last, unknown plans costing nothing |
| Proration.DaysLeft | src/billing/subscription_plans.rs:309-312 | before the period all days are left, on day d all but d, after it none |
| Proration.LaterCountsForLess | src/billing/subscription_plans.rs:314 | later in the period a change never counts for more |
| Proration.FirstPeriod | src/billing/subscription_plans.rs:291-296 | without a period nothing is prorated and one of thirty days begins |
| Proration.ChainIsAlmostDirect | src/billing/subscription_plans.rs:314 | a chain of n changes adds up to the direct change within n cents less n divided by the days of the period, rounded up |
| Proration.BoundIsAttained | src/billing/subscription_plans.rs:314 | that bound is attained for every n and every period |
| Proration.SameDayChangesAddUp | src/billing/subscription_plans.rs:229-334 | the prorations returned by n calls on the same day of a period are within that bound of the one direct call |
| Audiences.VersionsAreTotallyOrdered | src/billing/audiences.rs:140-149 | versions are totally ordered, equal exactly when their segments are |
| Audiences.MoreSegmentsAreNewer | src/billing/audiences.rs:140-149 | a further segment always makes a version newer, even ".0" |
| Audiences.FirstDifferenceDecides | src/billing/audiences.rs:146-148 | the first segment that differs decides, the larger number being newer |
| Audiences.WrittenVersionsCompare | src/billing/audiences.rs:140-149 | versions written as decimal numbers below 2^64 compare number by number |
| Audiences.OddSegments | src/billing/audiences.rs:142-144 | text that is no number, or a number that does not fit, counts as zero, and a leading plus is skipped |
| Audiences.VersionOperatorsAgree | src/billing/audiences.rs:59-68 | on version texts the four comparison operators are those of one total order |
| Audiences.RulesAreCombined | src/billing/audiences.rs:36-47 | rules are combined by "and", no rules admit everybody, an unreadable list nobody |
| Audiences.AttributeFields | src/billing/audiences.rs:83-89 | an attribute field reads the attribute of that name, and nothing if there is none |
| Audiences.NumbersCompareAsNumbers | src/billing/audiences.rs:117-120 | values that both are numbers compare as numbers under the ordering operators |
| Audiences.MatchingMeans | src/billing/audiences.rs:50-71 | what `eq`, `neq`, `in`, `not_in` and `exists` mean for a present field |
| Audiences.TyposFailClosed | src/billing/audiences.rs:36-75 | nobody passes a rule with an unknown operator or an absent field |
| Audiences.MisfitValue | src/billing/audiences.rs:49-112 | a rule whose value is missing, no list where one is asked for, or of a type the field never has, passes exactly for a present field and one of three operators |
| Audiences.UnmatchableRules | src/billing/audiences.rs:59-71 | asking for a match admits nobody, and asking for none admits everybody who has the field, exactly when the rule names no value the field can have |
| Audiences.SlipsAdmitEverybody | src/billing/audiences.rs:70-112 | a list without brackets under `not_in` and a quoted boolean under `neq` admit everybody who has the field |
| Audiences.MisfitOrdering | src/billing/audiences.rs:114-130 | under an ordering operator a value of a type the field never has admits everybody who has the field or nobody, and which of them by operator and type |

## Left out

- JwtService.JwtSessionService.VerifyAccess: signatures are modelled by their outcome; only claims the service issued decode, and UUIDs are assumed not to repeat.
- JwtService.JwtSessionService.RefreshTokens: one atomic step; interleavings inside a single call are not modelled, and what the query of the user table gives is a parameter (its `roles` are those left after a decoding like that of `role_ids`).
- JwtService.JwtSessionService.IsTokenRevoked: the branch that treats a failed query as "not revoked" is not modelled, like all database failures.
- JwtService.JwtSessionService.CreateTokens: IP address and user agent of the session row, and the list of sessions, are not modelled.
- JwtService.JwtSessionService.CleanupExpired: 90 days are 90 times 24 hours; the database counts calendar days of the session's time zone, so the sharp boundary needs a zone without clock changes.
- Experiments.AssignVariant: SHA-256 is a parameter giving the bucket; cumulative weights are unbounded integers, only the cast to `u64` wraps.
- AssignmentProtocol.CallersAgree: rows deleted by removing a customer, an offering or a whole experiment are not modelled, only those deleted by replacing variants.
- AssignmentProtocol.AgreeUnlessReplaced: variant ids are drawn from one sequence and never return; the model refuses to store a variant of another experiment, which the foreign key alone would not (the callers of the method pass the experiment's own variants).
- RateLimiter.Limiter.Check: real numbers instead of `f64`, and the capacity and rate of the theorems are not negative.
- SqlGuard.FirstSqlKeyword: Unicode's character classes and upper-casing are parameters; `SqlGuard.CommentsChangeNothing` assumes only that no character is both white space and part of a word.
- Inference.InferBatchSchema: the three string patterns are parameters here and written out in `InferencePatterns`, where only the set of decimal digits is left open, and the unordered column list is a map.
- InferenceLaws.BigIntColumns: the precision that integers lose in a DOUBLE PRECISION column is not modelled.
- Entitlements.Resolve: the subscription columns for unsubscribe and billing-issue instants are not modelled.
- BillingStore.Store.UpsertSubscriptionFromPurchase: one atomic step, without the raw receipt; other writers of subscription rows are not modelled.
- PhoneOtp.PhoneOtpService.SendOtp: SMS delivery, user creation and the `u64` underflow before 1970-01-01T00:15:00Z are not modelled; a verification is one atomic step.
- RoleService.RbacService.Can: JSON parsing is a parameter, and the assignment rows are given; the upsert of `assign_roles` names a conflict target for which the table declares no unique constraint, and whether it runs at all is not modelled.
- RoleService.RbacService.CreateRole: descriptions, creation instants and the conditions of permissions, which nothing reads, are not modelled.
- RbacCells.ReadsOnlyText: objects are maps, so a text that repeats a key of an object, which the typed decoder would reject, is not told apart.
- Proration.SubscriptionPlans.ChangePlan: products in `i64` are unbounded integers, timestamps that do not parse and plan ids that the store would deliver as JSON are not modelled, and the theorems take plan ids to be non-empty.
- Audiences.VersionOperatorsAgree: numeric comparison of texts that parse as numbers is a parameter, so nothing is claimed about mixing it with version order.
- HTTP handlers, middleware, GraphQL, MCP, dashboards, SDKs and the UI: plumbing.
- Token encodings, password hashing, TOTP, WebAuthn and SAML: cryptography and formats.
- Payment, tax, SMS and OAuth providers: calls into other systems.
- Teams, API keys, invoices, trials, dunning, metering, branching and extensions: not modelled.
- `src/billing/validators.rs` and `src/security/guard.rs` are not part of this model; nothing is claimed about receipt or weight validation.
