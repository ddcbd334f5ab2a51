# Monqom in Dafny

A model of the protocols and the exact arithmetic of Monqom's backend, with two functions of its browser code, and proofs
of what they promise. The database is state (maps of rows, or the fields of a class), a transaction body is one step or, where
interleaving matters, several; runs are arbitrary sequences of steps. Functions say what a call does; classes with methods,
loops and updates in place are proved to do it; lemmas state what follows over every input or every run. For each operation a
lemma says when it is accepted, which refusal it meets otherwise and what it leaves, on state and request alone.

`dafny verify dfyconfig.toml` checks everything.

| files | part of the system |
|---|---|
| Idempotency, IdempotencyInvariant, IdempotencySteps, IdempotencyTheorems, IdempotencyEffects, IdempotencyGap, OwnershipService, TransactionJson, CommandNormalization | machine writes: key locks, claims, leases, 7-day retention, cleanup, external-id tombstones, versions, stored responses, ETags (sections 8.8.3 and 13.1.1 of RFC 9110) |
| CurrencyLock, WorkspaceSettings | the shared and exclusive workspace lock around the base currency |
| RateLimit, RateLimitDecisions, RateLimitService | the sliding-window limiter and its Retry-After |
| NetworkPolicy, NetworkForms, NetworkGrammar, NetworkTheorems | addresses, networks and the CIDR policy |
| CredentialPolicy, Credentials, CredentialTheorems, CredentialDecisions, CredentialService | issue, rotate, revoke, hide and authenticate machine credentials |
| Categories, CategoryDecisions, CategoryTree, CategoryService | the category table and its hierarchy |
| BudgetProgress | spending rolled up the category tree |
| Calendar, GoalPlan, GoalBalance, GoalService | month arithmetic on server and browser, savings plans, goal balances |
| Csv, CsvExport | the CSV file and the paginated export |
| EmailOutbox, OutboxService | the outbox leases |
| Wrappers, Text, Arithmetic, Sorting | result types, text, shifts, sorting |

## What the proofs found

- The service passes no version for a browser edit (`backend/src/modules/transactions/transactions.repository.ts:341`), but the
  trigger of `backend/prisma/migrations/0025_external_transaction_reconciliation/migration.sql:37-48` advances the version of an
  integration-owned row on every update. The model takes the trigger as a parameter: versions count browser edits with it and
  only machine writes without it, and a stale machine update overwrites an unseen edit exactly without it.
- Two effects under one key can commit less than 7 days apart, because the 7 days run between completion stamps and a commit
  comes after its stamp. `IdempotencyGap` gives such a run, the exact condition for every two commits, and the bound: 7 days less
  the 30-second deadline of the service's transactions, which is reached.
- Archiving a goal is not part of the serializable regime its operations use (`backend/src/modules/goals/goals.service.ts:137`):
  an operation that read the goal before it was archived can commit afterwards and change the archived balance. The model gives
  the run and the exact condition. Balances stay non-negative all the same.
- Restoring a category restores all its children, and can give two of them one name; the code relies on the unique index there.
  Every other call keeps sibling names unique by its own check.
- Sent and failed are not final by themselves. In every state such a row changes exactly by the report of a delivery of it that
  is still live, and stays for good exactly when there is none; one can be left only after some delivery of the row outlived the
  five minutes, not always the one that does the damage, as a run shows. The lease properties are proved for every row whose
  own deliveries are in time.
- A percentage rounds half up for spending of zero or more; for a negative total it truncates toward zero, and is within half a
  basis point exactly when the remainder is at most half the budget.
- The unique index on external ids is not needed among the service's own writers: the identity lock already makes a second row
  impossible.
- A retried request is not always answered again: the replay checks the principal's allowlists of today against both the target as
  it is and the target as it was, and answers "not found" when either fails, even for the very call that succeeded before.
- In every reachable state an active credential has a live integration, a creator in authority and supported scopes, so these
  checks of the authentication never decide.

## Model

| member | source | states |
|---|---|---|
| IdempotencyTheorems.ExactlyOnce | backend/src/modules/integrations/external-transaction-ownership.service.ts:289-383 | In every interleaving of requests, rollbacks and cleanups, two committed effects under one integration and key are at least 7 days apart by their completion stamps, their commits at least 7 days less the time the earlier one took from its stamp to its commit, and no committed claim is in progress |
| IdempotencyGap.CommitGap | backend/src/modules/integrations/external-transaction-ownership.service.ts:340-383 | Two commits under one key are 7 days apart exactly when the wait of the later stamp beyond the retention and its own lag make up the lag of the earlier commit |
| IdempotencyGap.CommitGapWithin | backend/src/modules/integrations/external-transaction-ownership.service.ts:382 | Under a transaction deadline the commits are at least 7 days less the deadline apart, in every run |
| IdempotencyGap.CommitGapOfTheService | backend/src/modules/integrations/external-transaction-ownership.service.ts:382 | With the 30 seconds the service sets: at least 7 days less 30 seconds |
| IdempotencyGap.EarlyCommit | backend/src/modules/integrations/external-transaction-ownership.service.ts:340-383 | The bound is reached: for every lag the deadline allows there is a run with exactly that gap |
| IdempotencyGap.LessThanSevenDays | backend/src/modules/integrations/external-transaction-ownership.service.ts:340-383 | A run within the deadline whose two effects under one key commit less than 7 days apart |
| IdempotencyTheorems.OnlyReplaysBetween | backend/src/modules/integrations/external-transaction-ownership.service.ts:313-358 | While a completion is retained, a matching request under its key is only replayed or refused, a differing one only conflicts, and nobody is ever answered "in progress" |
| IdempotencyTheorems.FaithfulReplay | backend/src/modules/integrations/external-transaction-ownership.service.ts:359-429 | Every replay repeats the status, ETag and transaction with tags of an earlier retained completion of the same request, whatever happened to its target since |
| TransactionJson.StoredBodyRoundTrip | backend/src/modules/integrations/external-transaction-ownership.service.ts:663-713 | Deserialising a serialised transaction gives back every column, date and tag |
| TransactionJson.IsoRoundTrip | backend/src/modules/integrations/external-transaction-ownership.service.ts:663-713 | An instant survives its ISO text to the millisecond |
| IdempotencyTheorems.SourceIdentity | backend/src/modules/integrations/external-transaction-ownership.service.ts:123-169 | At most one row is ever created per workspace, integration and external id, and it stays as a tombstone; every later create of that id, keyed or keyless, writes nothing and answers "already exists" |
| IdempotencyTheorems.VersionChain | backend/src/modules/integrations/external-transaction-ownership.service.ts:187-269 | A row's version is one plus the number of writes that moved it; each such write started from the version its predecessors left, no two from the same one, and a machine write from the version its If-Match named, trigger or not |
| IdempotencyTheorems.SecondCheckHolds | backend/src/modules/transactions/transactions.repository.ts:317-347 | The row lock keeps the version check of a located update true until its conditional write |
| IdempotencyTheorems.NoUnseenWrite | backend/prisma/migrations/0025_external_transaction_reconciliation/migration.sql:37-48 | With the version trigger, the If-Match version of every committed machine write has counted every earlier write to the row, browser edits included |
| IdempotencyTheorems.StaleUpdateMeetsEdit | backend/src/modules/transactions/transactions.repository.ts:341 | A browser edit passes no version; a machine update prepared before it overwrites it exactly when the trigger is missing |
| OwnershipService.ServeIsARun | backend/src/modules/integrations/external-transaction-ownership.service.ts:300-383 | A call alone leaves the tables that running its protocol steps leaves |
| IdempotencyEffects.DecisionExactly | backend/src/modules/integrations/external-transaction-ownership.service.ts:313-429 | Over every run: under its key lock a request is answered exactly when a completion under its key is retained. A different request conflicts; the same one gets the first answer, marked as replayed, exactly when the target is still the principal's, refers to what it may use today, and it may also use what the target referred to then; otherwise it is not found. With none retained it claims the key |
| IdempotencyEffects.ReplayExactly | backend/src/modules/integrations/external-transaction-ownership.service.ts:385-429 | The same for one stored record: first answer or not found, by conditions on the row, the references and the allowlists written out |
| IdempotencyEffects.MayUseExactly | backend/src/modules/integrations/external-transaction-ownership.service.ts:489-518 | What a principal may use: within its allowlists, active in its workspace, of the wanted type |
| IdempotencyEffects.DeletedIsGone | backend/src/modules/integrations/external-transaction-ownership.service.ts:227-286 | Once a delete has committed, in every later state its row is as the delete left it: marked deleted, the version one up, all else as before; it is the only row of its identity, no later update or delete of the identity commits, and one that tries is turned away as it looks |
| IdempotencyEffects.DeletedStays | backend/src/modules/integrations/external-transaction-ownership.service.ts:459-477 | No step of any request, browser or cleanup changes a deleted row |
| IdempotencyEffects.CommitWrites | backend/src/modules/integrations/external-transaction-ownership.service.ts:107-270 | What each finished request leaves when it commits, in every reachable state: one new active row with what its command asks for, or none; the active row rewritten at its version and still active; the active row marked deleted and nothing else of it changed |
| IdempotencyEffects.CleanupExactly | backend/src/modules/integrations/external-transaction-ownership.service.ts:289-298 | The cleanup removes exactly the records whose seven days are over |
| OwnershipService.CreateDecided | backend/src/modules/integrations/external-transaction-ownership.service.ts:123-161 | A create not answered from a record: which refusal, or the stored row field by field from command and quote, and its answer |
| OwnershipService.UpdateDecided | backend/src/modules/integrations/external-transaction-ownership.service.ts:187-224 | The same for an update: the active row keeps its identity, takes the command and the quote, goes one version up and stays active |
| OwnershipService.DeleteDecided | backend/src/modules/integrations/external-transaction-ownership.service.ts:242-269 | The same for a delete: exactly the row found is marked deleted, one version up, nothing else changes |
| OwnershipService.NotFoundOnceDeleted | backend/src/modules/integrations/external-transaction-ownership.service.ts:227-286 | After an accepted delete every update or delete of the source identity is answered not found |
| OwnershipService.NotFoundForGood | backend/src/modules/integrations/external-transaction-ownership.service.ts:187-286 | In every state that follows a committed delete, an update or delete of that source identity that no record answers is answered not found |
| OwnershipService.SecondRequest | backend/src/modules/integrations/external-transaction-ownership.service.ts:313-429 | While the record of an accepted call is retained, whatever happened to rows and references since: another claim conflicts, the same claim replays the first answer exactly when its target is still visible to the principal with references it may use, then and now; otherwise not found |
| OwnershipService.RetryDecidedByIntent | backend/src/modules/integrations/external-transaction-ownership.service.ts:549-587 | For commands as they arrive: the second create is the first request again exactly when the two agree field by field |
| OwnershipService.LeaseExactly | backend/src/modules/integrations/external-transaction-ownership.service.ts:327-356 | A claim that never completed holds its key for five minutes against the same request, and against others until it is removed |
| OwnershipService.CallsChecked | backend/src/modules/integrations/external-transaction-ownership.service.ts:112-122 | A call reaches its transaction exactly with its scope, an acceptable version, command and external id, and a proper key |
| OwnershipService.NoClaimLeft | backend/src/modules/integrations/external-transaction-ownership.service.ts:340-380 | A call that starts among completed records ends among completed records, though its claim is inserted as started |
| OwnershipService.Tables.ClaimKey | backend/src/modules/integrations/external-transaction-ownership.service.ts:313-358 | Conflict, busy, replay or claim under the key lock; the claim inserted carries workspace, operation, target, fingerprint and lease |
| OwnershipService.Tables.CreateIdempotently | backend/src/modules/integrations/external-transaction-ownership.service.ts:107-169 | A create as it arrives: scope, command, key and identity checks in order, then the tables and the answer of the specified call |
| OwnershipService.Tables.UpdateIdempotently | backend/src/modules/integrations/external-transaction-ownership.service.ts:171-225 | The same for a versioned update, with its version and external id checks |
| OwnershipService.Tables.DeleteIdempotently | backend/src/modules/integrations/external-transaction-ownership.service.ts:227-270 | The same for a versioned soft delete |
| OwnershipService.Tables.CleanupExpiredIdempotency | backend/src/modules/integrations/external-transaction-ownership.service.ts:289-298 | Cleanup removes exactly the records past retention and counts them |
| OwnershipService.Tables.FindOwned | backend/src/modules/integrations/external-transaction-ownership.service.ts:459-477 | The lookup by source identity finds a match whenever there is one, tombstones on request |
| CommandNormalization.CollectTags | backend/src/modules/integrations/external-transaction-ownership.service.ts:628-644 | The loop over tags keeps the first spelling of each key, sorted by key |
| CommandNormalization.TagIntentExactly | backend/src/modules/integrations/external-transaction-ownership.service.ts:573-587 | Two requests have the same tag intent exactly when their trimmed tags are the same set without letter case |
| CommandNormalization.TagsTwice | backend/src/modules/integrations/external-transaction-ownership.service.ts:628-644 | Normalised tags normalise to themselves |
| CommandNormalization.CommandDecided | backend/src/modules/integrations/external-transaction-ownership.service.ts:595-645 | Which commands are accepted, which refusal the others meet, and the normal form field by field |
| CommandNormalization.CommandTwice | backend/src/modules/integrations/external-transaction-ownership.service.ts:595-645 | An accepted command normalises to a command that is accepted again unchanged |
| CommandNormalization.IntentExactly | backend/src/modules/integrations/external-transaction-ownership.service.ts:573-645 | Two accepted commands have one fingerprint exactly when they agree field by field in normal form |
| CommandNormalization.ClaimExactly | backend/src/modules/integrations/external-transaction-ownership.service.ts:549-560 | The same for the claims of creates, and of updates at one version |
| CommandNormalization.OtherClaimsDiffer | backend/src/modules/integrations/external-transaction-ownership.service.ts:562-571 | Deletes share a claim exactly for one target at one version; requests of different kinds never share one |
| CommandNormalization.EtagRoundTrip | backend/src/modules/integrations/external-transaction-contract.ts:16-24 | The ETag sent for a version parses back to that version |
| CommandNormalization.EtagExactly | backend/src/modules/integrations/external-transaction-contract.ts:16-24 | A text that parses is exactly the ETag the service emits for its version |
| CurrencyLock.EveryRunCurrencyStable | backend/src/modules/workspace/workspace.service.ts:97-159 | In every interleaving of shared financial writes and exclusive settings changes, each existing transaction, budget and goal was written under its workspace's current base currency |
| CurrencyLock.BaseMovesOnlyWhenEmpty | backend/src/modules/workspace/workspace.service.ts:97-159 | A base currency changes only by a committed settings change, and then nothing financial exists in the workspace |
| CurrencyLock.ChangeTakesEffect | backend/src/modules/workspace/workspace.service.ts:111-131 | In every reachable state a decided change that commits moves its workspace to the currency asked for, no other workspace and no item |
| CurrencyLock.ChangeDecidedExactly | backend/src/modules/workspace/workspace.service.ts:97-131 | A change that runs through is dropped exactly for a missing workspace or for another currency while anything financial exists; otherwise the base is the currency asked for |
| CurrencyLock.CountStaysRight | backend/src/modules/workspace/workspace.repository.ts:103-132 | A count of zero read under the exclusive lock is still zero when the change is decided |
| WorkspaceSettings.Workspaces.LockWorkspaceCurrency | backend/src/shared/database/workspace-financial-lock.ts:5-12 | Takes the shared lock and returns the row, or reports a missing workspace |
| WorkspaceSettings.Workspaces.BaseCurrencyLocked | backend/src/modules/workspace/workspace.repository.ts:124-131 | Locked exactly when a transaction, budget or goal of the workspace exists |
| WorkspaceSettings.Workspaces.UpdateWorkspaceSettings | backend/src/modules/workspace/workspace.service.ts:85-159 | Which error each input and state gives; on acceptance the requested currency is the one stored and returned, without a request it stays, name and time zone as asked; amounts still agree with the base currency |
| WorkspaceSettings.ValidateSettings | backend/src/modules/workspace/workspace.service.ts:216-259 | Each bad field reports its own error and a good one none |
| RateLimitDecisions.CredentialPassesExactly | backend/src/modules/integrations/integration-rate-limit.service.ts:53-89 | In every ordered run, told from its calls alone: a read passes exactly with fewer than 120 charged calls in its minute, a mutation exactly with fewer than 60 passed mutations too |
| RateLimitDecisions.RejectedMutationIsCharged | backend/src/modules/integrations/integration-rate-limit.service.ts:73-75 | A rejected mutation is charged to the total while it has room, and not to the mutations |
| RateLimitDecisions.FailurePassesExactly | backend/src/modules/integrations/integration-rate-limit.service.ts:112-139 | In every ordered run a failure is blocked exactly while its source is, or as the twentieth in five minutes, which blocks it for a quarter of an hour; the instant returned is the end of the block |
| RateLimitDecisions.SourceBlockedExactly | backend/src/modules/integrations/integration-rate-limit.service.ts:91-110 | Whether and until when a source is blocked, at any moment after any run |
| RateLimitDecisions.StepUpPassesExactly | backend/src/modules/integrations/integration-rate-limit.service.ts:141-187 | In every ordered run an attempt passes exactly with fewer attempts charged in its quarter of an hour than the budget |
| RateLimitDecisions.CollectedExactly | backend/src/modules/integrations/integration-rate-limit.service.ts:189-199 | When the cleanup may take the row a call left |
| RateLimit.RateBound | backend/src/modules/integrations/integration-rate-limit.service.ts:53-89 | In every run of calls and cleanups, any window holds at most the limit of accepted calls (120 per credential and minute) and at most 60 accepted mutations |
| RateLimit.AcceptedAreRecorded | backend/src/modules/integrations/integration-rate-limit.service.ts:62-84 | Every accepted call still inside the window is among the recorded times, and every accepted mutation among the mutation times |
| RateLimit.AfterSound | backend/src/modules/integrations/integration-rate-limit.service.ts:201-232 | Over every run the recorded times are in clock order, none later than now, within the limits, and the mutations are a sub-multiset of the requests |
| RateLimit.CleanupNeverChangesADecision | backend/src/modules/integrations/integration-rate-limit.service.ts:189-199 | A call is decided as if no cleanup had ever run |
| RateLimit.RetryInstantExact | backend/src/modules/integrations/integration-rate-limit.service.ts:64-85 | After a rejection, the same call arriving next passes at x exactly when x has reached the returned instant, under all three policies |
| RateLimit.RetryAfterSecondsExact | backend/src/modules/integrations/integration-rate-limit.service.ts:250-256 | The whole seconds of Retry-After are the least positive number after which the call passes |
| RateLimit.RetryAfterInRuns | backend/src/modules/integrations/integration-rate-limit.service.ts:201-232 | The same after any run of calls and cleanups |
| RateLimit.ConsumeInOrder | backend/src/modules/integrations/integration-rate-limit.service.ts:62-84 | One call keeps both lists in clock order and the mutations a sub-multiset of the requests |
| RateLimitService.RateLimits.AssertSourceAllowed | backend/src/modules/integrations/integration-rate-limit.service.ts:91-110 | Whether a source is blocked now, and for how many seconds |
| RateLimitService.RateLimits.ConsumeCredential | backend/src/modules/integrations/integration-rate-limit.service.ts:53-89 | The row left and the Retry-After of one credential call, and when it passes, by the times the row holds |
| RateLimitService.RateLimits.ConsumeFailedAuthentication | backend/src/modules/integrations/integration-rate-limit.service.ts:112-139 | The row left and the block of one failed authentication, and when it is merely refused |
| RateLimitService.RateLimits.ConsumeManagementStepUp | backend/src/modules/integrations/integration-rate-limit.service.ts:141-187 | The rows left by the loop over the user and source budgets, each with its own clock reading, stopping at the first rejection; it passes exactly below 5 attempts of the user and 20 of the source |
| RateLimitService.RateLimits.ChargeStepUp | backend/src/modules/integrations/integration-rate-limit.service.ts:158-186 | One budget of that loop |
| RateLimitService.RateLimits.CleanupExpired | backend/src/modules/integrations/integration-rate-limit.service.ts:189-199 | Exactly the collectable rows go |
| NetworkTheorems.OnePrefixSpace | backend/src/modules/integrations/integration-network-policy.ts:89-110 | For every client and every CIDR text the two-family matcher equals one prefix comparison on 128 bits, IPv4 embedded as IPv4-mapped IPv6 with prefix + 96 (section 2.5.5.2 of RFC 4291) |
| NetworkTheorems.AllowedIsPrefixMembership | backend/src/modules/integrations/integration-network-policy.ts:89-110 | A request passes exactly when the restriction is off or its address shares the prefix of a listed network |
| NetworkPolicy.ParseFormatted | backend/src/modules/integrations/integration-network-policy.ts:9-50 | Parsing a printed address gives it back |
| NetworkGrammar.DottedExactly | backend/src/modules/integrations/integration-network-policy.ts:11-17 | A text is a dotted address exactly in its printed form: four decimals to 255 without leading zeros |
| NetworkGrammar.GroupTextExactly | backend/src/modules/integrations/integration-network-policy.ts:18-34 | A text without dots is an address exactly when written as eight groups, or as at most seven around one "::", and then it is the address of those groups |
| NetworkGrammar.DottedTextExactly | backend/src/modules/integrations/integration-network-policy.ts:9-34 | Any other text with a dot is an address exactly when it ends in an IPv4 address after a colon and is one with that tail in two groups |
| NetworkGrammar.CidrExactly | backend/src/modules/integrations/integration-network-policy.ts:58-63 | A network text is exactly an address text, a slash and a prefix length without leading zeros that the family allows |
| NetworkForms.CompressedParses | backend/src/modules/integrations/integration-network-policy.ts:27-34 | Whatever run of zero groups is written as "::", the text parses to the same address (section 2.2 of RFC 4291) |
| NetworkForms.MixedParses | backend/src/modules/integrations/integration-network-policy.ts:19-26 | The last 32 bits written as a dotted IPv4 address parse to the same address |
| NetworkForms.CompressedMixedParses | backend/src/modules/integrations/integration-network-policy.ts:19-34 | "::" and a dotted tail together, as in ::ffff:1.2.3.4, parse to the same address |
| NetworkPolicy.FieldsCompose | backend/src/modules/integrations/integration-network-policy.ts:43-50 | Consecutive bit fields, put together by shift and or, give the number above the last shift |
| NetworkTheorems.ParsedIsCanonical | backend/src/modules/integrations/integration-network-policy.ts:58-75 | A parsed CIDR is in range, masked, and mapped networks of /96 or longer are IPv4 |
| NetworkTheorems.ParseFormattedCidr | backend/src/modules/integrations/integration-network-policy.ts:58-87 | Reading a printed network gives it back |
| NetworkTheorems.NormalizeSound | backend/src/modules/integrations/integration-network-policy.ts:77-87 | A list is refused exactly for a bad text; otherwise the result is distinct, canonical and lists the same networks |
| NetworkTheorems.NormalizeTwice | backend/src/modules/integrations/integration-network-policy.ts:77-87 | Normalising again changes nothing |
| NetworkTheorems.NormalizeKeepsDecisions | backend/src/modules/integrations/integration-network-policy.ts:77-110 | Normalising a policy changes no decision for any client |
| NetworkTheorems.ClientIpStable | backend/src/modules/integrations/integration-network-policy.ts:52-56 | A normalised client address is stable and decided like the address as sent |
| CredentialPolicy.NormalizePolicySound | backend/src/modules/integrations/integration-credential.service.ts:746-774 | A policy is accepted exactly when the input meets the listed conditions; what is stored is in normal form and grants what the input names |
| CredentialPolicy.PolicyRefusals | backend/src/modules/integrations/integration-credential.service.ts:746-774 | Which refusal each unacceptable policy meets, each exactly |
| CredentialPolicy.ScopesSound | backend/src/modules/integrations/integration-scopes.ts:34-40 | Scopes are accepted exactly when all are supported, and come back distinct, sorted and the same set |
| CredentialPolicy.RotationKeepsTheRest | backend/src/modules/integrations/integration-management.service.ts:200-238 | A rotation keeps every part it does not replace exactly, and replaces the others by what the request says |
| CredentialPolicy.PlainRotation | backend/src/modules/integrations/integration-management.service.ts:200-238 | A rotation that replaces nothing is refused for its expiry alone and otherwise grants exactly what was granted |
| CredentialTheorems.Lifecycle | backend/src/modules/integrations/integration-credential.service.ts:189-407 | Over every run a credential only moves active, revoked, hidden, never changes its grants, dates or integration, and lives at most 365 days |
| CredentialTheorems.IssuedAsRequested | backend/src/modules/integrations/integration-credential.service.ts:189-231 | An issued credential is active from now to the asked-for expiry and grants exactly the scopes, resources, networks and flags of the input, the resources all existing |
| CredentialTheorems.DeletedExactly | backend/src/modules/integrations/integration-credential.service.ts:369-407 | An integration is deleted exactly when it has credentials and all of them are hidden |
| CredentialTheorems.AuthenticatesExactly | backend/src/modules/integrations/integration-credential.service.ts:409-525 | In every reachable state exactly the holder of an active credential, within its lifetime and from an allowed address, gets in; the other checks of the service follow |
| CredentialTheorems.RevokedIsFinal | backend/src/modules/integrations/integration-credential.service.ts:409-464 | A credential revoked in the tables never authenticates again, whatever follows |
| CredentialTheorems.EndedNeverAuthenticates | backend/src/modules/integrations/integration-credential.service.ts:233-525 | After a revocation that took place, a rotation away from it, or its creator's loss of authority or account, nobody ever authenticates with the credential again |
| CredentialTheorems.AuthorityEnds | backend/prisma/migrations/0023_integration_auth_hardening/migration.sql:38-104 | Losing the membership or the account revokes every active credential of the creator in the same step |
| CredentialTheorems.RotationKeepsActiveCount | backend/src/modules/integrations/integration-credential.service.ts:331-366 | A rotation exchanges one active credential of its integration for another, so the active count stays |
| CredentialTheorems.ActiveCountOtherwise | backend/src/modules/integrations/integration-credential.service.ts:101-278 | Issuing adds exactly one active credential, revoking removes exactly one, other calls none |
| CredentialTheorems.StablePolicy | backend/src/modules/integrations/integration-credential.service.ts:280-367 | Any chain of rotations that replaces nothing grants the same scopes, ids and networks, and each credential is replaced at most once |
| CredentialTheorems.EarlierReadPlansTheSame | backend/src/modules/integrations/integration-management.service.ts:135-159 | A rotation planned on the row as read before the lock plans the same as on the locked row |
| CredentialDecisions.RotatesExactly | backend/src/modules/integrations/integration-management.service.ts:133-159 | In every reachable state a rotation takes place exactly for a credential that is in place, active and unexpired, an acting administrator, flagged lists, an expiry within 365 days, acceptable replaced parts and known resources |
| CredentialDecisions.RotateDecided | backend/src/modules/integrations/integration-credential.service.ts:280-367 | The refusals of a rotation in order, each on state and request, the creator's and the actor's authority included; otherwise the old row ends now and the new one carries its policy over |
| CredentialDecisions.PlanDecided | backend/src/modules/integrations/integration-management.service.ts:200-238 | Of a stored policy only what a rotation replaces can be refused, and how |
| CredentialDecisions.IssueDecided | backend/src/modules/integrations/integration-credential.service.ts:189-231 | When a credential is issued, authority of creator and actor included, and which refusal it meets otherwise |
| CredentialDecisions.CreationDecided | backend/src/modules/integrations/integration-credential.service.ts:101-156 | The same for an integration with its first credential |
| CredentialDecisions.EmptyCreationDecided | backend/src/modules/integrations/integration-credential.service.ts:158-187 | The same for an integration alone |
| CredentialDecisions.RevokeDecided | backend/src/modules/integrations/integration-credential.service.ts:233-278 | When a revocation ends a credential, by whose authority, and its answer otherwise |
| CredentialDecisions.HideDecided | backend/src/modules/integrations/integration-credential.service.ts:369-407 | When a credential is hidden, and that its integration is deleted exactly when no other is left in sight |
| CredentialDecisions.OnlyAdministratorsManage | backend/src/modules/integrations/integration-credential.service.ts:101-407 | No management call changes anything unless the one acting is an administrator of the workspace at that moment |
| CredentialDecisions.AuthorityLossExactly | backend/prisma/migrations/0023_integration_auth_hardening/migration.sql:38-104 | A lost membership or account ends exactly the active credentials its holder created, and touches no other |
| CredentialDecisions.StampExactly | backend/src/modules/integrations/integration-credential.service.ts:482-510 | When a use is stamped, and that the stamp changes nothing else |
| CredentialService.Tables.PresentedExactly | backend/src/modules/integrations/integration-credential.service.ts:414-439 | A header presents a credential exactly when its whole token is the one stored under the token's prefix |
| CredentialService.Tables.RotateCredential | backend/src/modules/integrations/integration-credential.service.ts:280-367 | The tables and the answer of a rotation as the management service makes it, refusals in its order; the token handed out then presents the new credential |
| CredentialService.Tables.RevokeCredential | backend/src/modules/integrations/integration-credential.service.ts:233-278 | The tables and the answer of a revocation |
| CredentialService.Tables.IssueCredential | backend/src/modules/integrations/integration-credential.service.ts:189-231 | The tables and the answer of an issue; the token handed out then presents the credential |
| CredentialService.Tables.CreateIntegrationWithCredential | backend/src/modules/integrations/integration-credential.service.ts:101-156 | The tables and the answer of creating an integration with its first credential, name checks included |
| CredentialService.Tables.DeleteCredential | backend/src/modules/integrations/integration-credential.service.ts:369-407 | Hides a revoked credential and deletes an integration left without a visible one |
| CredentialService.BearerExactly | backend/src/modules/integrations/integration-credential.service.ts:834-837 | Exactly a bearer header with a well-formed token is read, and gives that token |
| CredentialService.Tables.Authenticate | backend/src/modules/integrations/integration-credential.service.ts:409-525 | The token's prefix finds the credential and the whole token proves it; one read decides, a refusal of a proven token is audited, the usage stamp changes nothing else |
| Categories.EveryRunForest | backend/src/modules/categories/categories.service.ts:55-244 | After any calls depth is at most two, children share workspace and type with their parent, and an active child has an active parent |
| Categories.DepthAtMostTwo | backend/src/modules/categories/categories.service.ts:309-321 | A parent is never itself a child, nor its own parent |
| Categories.UpdateChanges | backend/src/modules/categories/categories.service.ts:92-146 | An accepted edit changes name, icon and place of that one active category, keeps type and order, and drops the system key exactly on a rename |
| Text.NonEmptyExactly | backend/src/modules/categories/categories.service.ts:304-307 | An optional text is stored without its outer white space, and as nothing when nothing is left |
| CategoryDecisions.CreateDecided | backend/src/modules/categories/categories.service.ts:55-90 | Which refusal a new category meets, or its row field by field |
| CategoryDecisions.CreatedLast | backend/src/modules/categories/categories.service.ts:345-356 | A created category stands after every active one of its group |
| CategoryDecisions.UpdateDecided | backend/src/modules/categories/categories.service.ts:92-146 | Which refusal an edit meets, in order |
| CategoryDecisions.ReorderDecided | backend/src/modules/categories/categories.service.ts:148-183 | Different active siblings of the workspace, and nothing else, are accepted, and then stand in the given order |
| CategoryDecisions.ArchiveDecided | backend/src/modules/categories/categories.service.ts:185-204 | The active category and all its children are archived, nothing else |
| CategoryDecisions.RestoreDecided | backend/src/modules/categories/categories.service.ts:206-244 | When an archived category comes back with all its children, and which refusal it meets otherwise |
| Categories.OthersKeepNames | backend/src/modules/categories/categories.service.ts:322-344 | No call but a restore can make two active siblings share a name |
| Categories.RestoreUniqueExactly | backend/src/modules/categories/categories.service.ts:206-244 | A restore keeps sibling names unique exactly when no two children of the restored category share one |
| Categories.RestoreCanRepeatNames | backend/src/modules/categories/categories.service.ts:206-244 | A run of five calls after which restoring a category repeats a name among its children |
| CategoryTree.GroupByParent | backend/src/modules/categories/categories.service.ts:260-262 | The loop fills the map with each parent's rows in listed order |
| CategoryTree.BuiltHierarchy | backend/src/modules/categories/categories.service.ts:246-273 | On every forest the recursion ends and its result is the hierarchy: each group exactly its rows, each once, in order |
| CategoryTree.ListedExactlyOnce | backend/src/modules/categories/categories.service.ts:246-273 | The tree lists every asked-for category, and nothing else, exactly once |
| CategoryTree.FoundExactly | backend/src/modules/categories/categories.service.ts:395-407 | Depth-first search finds a category exactly when the request asks for it |
| CategoryTree.ReorderShows | backend/src/modules/categories/categories.service.ts:148-183 | After reordering a whole group the hierarchy shows it in exactly the requested order |
| CategoryService.Store.CreateCategory | backend/src/modules/categories/categories.service.ts:55-90 | The table and the answer of a create, with the order after the largest in its group |
| CategoryService.Store.UpdateCategory | backend/src/modules/categories/categories.service.ts:92-146 | The table and the answer of an edit, keeping the forest |
| CategoryService.Store.ReorderCategories | backend/src/modules/categories/categories.service.ts:148-183 | The loop of updates renumbers the listed siblings by position |
| CategoryService.Store.ArchiveCategory | backend/src/modules/categories/categories.service.ts:185-204 | Archives the category with its children |
| CategoryService.Store.RestoreCategory | backend/src/modules/categories/categories.service.ts:206-244 | Restores the category with its children, under an active parent only |
| CategoryService.Store.NextOrder | backend/src/modules/categories/categories.service.ts:345-356 | One more than the largest order of the active group, 1 in an empty one |
| CategoryService.Store.Hierarchy | backend/src/modules/categories/categories.service.ts:246-273 | The listing on any forest, each asked-for row once |
| CategoryService.Store.GetCategoryById | backend/src/modules/categories/categories.service.ts:42-53 | Finds exactly the categories the request asks for |
| BudgetProgress.RollUp | backend/src/modules/budgets/budget-progress.calculator.ts:71-85 | The sum over all descendants is the category's own spending plus its children's sums, on every acyclic list |
| BudgetProgress.Calculator.GetTotalSpent | backend/src/modules/budgets/budget-progress.calculator.ts:71-85 | The memoised recursion ends and returns the plain sum over the spending rows below the category |
| BudgetProgress.RootsAddUp | backend/src/modules/budgets/budget-progress.calculator.ts:71-95 | The totals of the roots add up to all spending on listed categories |
| BudgetProgress.PercentageExactly | backend/src/modules/budgets/budget-progress.calculator.ts:124-134 | Percentages are within half a basis point, exactly unless a negative total has a remainder beyond half |
| BudgetProgress.Calculator.Calculate | backend/src/modules/budgets/budget-progress.calculator.ts:34-122 | The report is the relevant categories with their plain sums |
| BudgetProgress.EntryTells | backend/src/modules/budgets/budget-progress.calculator.ts:103-134 | An entry tells name, key, plain sum and, with a budget row, the last one's amount, what is left of it and the rounded share; a category is listed exactly with a budget row or spending above zero |
| BudgetProgress.LastBudgetExactly | backend/src/modules/budgets/budget-progress.calculator.ts:50-58 | The budget of a category is the amount of its last row |
| BudgetProgress.ReportExactly | backend/src/modules/budgets/budget-progress.calculator.ts:103-121 | Exactly the budgeted or spent categories appear |
| BudgetProgress.ReportInOrder | backend/src/modules/budgets/budget-progress.calculator.ts:103-121 | They appear in list order |
| BudgetProgress.IndexBudgets | backend/src/modules/budgets/budget-progress.calculator.ts:50-58 | The last budget row of a category counts |
| Calendar.AddAgrees | frontend/src/lib/goals.ts:45-56 | Browser and server add months alike, text for date |
| Calendar.AddedMonths | backend/src/modules/goals/goal-plan.calculator.ts:67-73 | Adding months moves the month by exactly that many and keeps the day as far as the month allows |
| Calendar.TextOrder | frontend/src/lib/goals.ts:58-64 | Comparing two date texts is comparing the dates |
| Calendar.ReadExactly | frontend/src/lib/date-only.ts:25-35 | A text is read as a date exactly when it is that date printed |
| Calendar.ReadPrinted | frontend/src/lib/date-only.ts:25-35 | A printed date reads back |
| GoalPlan.TwoPlansAgree | frontend/src/lib/goals.ts:66-88 | For every allowed target date the preview's months and monthly cents equal the server plan of the new goal, and the amount is the least that covers the remainder |
| GoalPlan.TargetDateExactly | backend/src/modules/goals/goals.service.ts:393-399 | A target date is accepted exactly as a printed date from one month ahead to 120 |
| GoalPlan.OperationDateExactly | backend/src/modules/goals/goals.service.ts:401-405 | An operation's date is accepted exactly as a printed date no later than today |
| GoalPlan.SameRange | backend/src/modules/goals/goals.service.ts:393-399 | The range of dates the form offers is the range the server accepts |
| GoalPlan.MonthsUntilIsLeast | frontend/src/lib/goals.ts:58-64 | The browser's count is the least number of months that reaches the target, kept within 1 and 120 |
| GoalPlan.MonthsRoundTrip | frontend/src/lib/goals.ts:45-64 | Choosing a number of months and counting it back from the date gives the number again |
| GoalPlan.MonthsUntilDate | frontend/src/lib/goals.ts:58-64 | The method with its local increment computes that count |
| GoalPlan.RecommendedIsLeast | backend/src/modules/goals/goal-plan.calculator.ts:12-46 | The remainder, the status and the recommended amount of a plan: it covers the remainder in the months left and no smaller one does; when it is zero and when absent |
| GoalPlan.PlanMonths | backend/src/modules/goals/goal-plan.calculator.ts:27-29 | The months left, on month numbers |
| GoalBalance.EveryBalanceStands | backend/src/modules/goals/goals.service.ts:91-280 | Over every interleaving no goal's balance is negative, and the plan's current amount is that balance |
| GoalBalance.CallBalance | backend/src/modules/goals/goals.service.ts:179-280 | An accepted call changes the balance by exactly its effect and not below zero |
| GoalBalance.RefusedExactly | backend/src/modules/goals/goals.service.ts:91-280 | When a call is refused and how: archived, operation missing, bad date, balance below zero, and nothing else |
| GoalBalance.WrittenExactly | backend/src/modules/goals/goals.service.ts:91-280 | What an accepted call writes: only the columns named, one operation at the end, in its place, or gone, the others in order |
| GoalBalance.ArchivedChangesExactly | backend/src/modules/goals/goals.service.ts:135-211 | The balance of an archived goal changes exactly when an operation that began before the archiving commits after it |
| GoalBalance.ArchivedBalanceCanChange | backend/src/modules/goals/goals.service.ts:135-159 | A run in which that happens |
| GoalBalance.QuietArchiveStays | backend/src/modules/goals/goals.service.ts:427-429 | With nothing in flight, an archived goal stays as it is until restored or deleted |
| GoalService.BalanceCents | backend/src/modules/goals/goals.service.ts:431-444 | The loops over operations compute the balance |
| GoalService.Goals.Attempt | backend/src/modules/goals/goals.service.ts:91-280 | One attempt: which refusal, or which rows are written |
| GoalService.Goals.RunSerializable | backend/src/modules/goals/goals.service.ts:324-340 | At most three attempts, each on the tables it finds; the call takes effect once, in the attempt returned, or not at all |
| GoalService.Goals.UpdateGoal | backend/src/modules/goals/goals.service.ts:91-133 | An edit under that regime, a new target date read against today |
| GoalService.Goals.CreateOperation | backend/src/modules/goals/goals.service.ts:179-211 | A new operation under that regime, its date not in the future |
| GoalService.Goals.UpdateOperation | backend/src/modules/goals/goals.service.ts:213-258 | A changed operation under that regime |
| GoalService.Goals.DeleteOperation | backend/src/modules/goals/goals.service.ts:260-280 | A removed operation under that regime |
| GoalService.Goals.DeleteGoal | backend/src/modules/goals/goals.service.ts:161-177 | The goal goes with its operations, or is reported missing |
| GoalService.Goals.CreateGoal | backend/src/modules/goals/goals.service.ts:54-89 | A new goal for an accepted target date only |
| GoalService.Goals.SetArchived | backend/src/modules/goals/goals.service.ts:135-159 | Changes nothing but the archive flag |
| Csv.CsvRoundTrip | backend/src/modules/export/export.service.ts:225-265 | A reader for section 2 of RFC 4180 finds every record, sanitised, and nothing else |
| Csv.ReadEscaped | backend/src/modules/export/export.service.ts:246-265 | A written field reads back as its sanitised value, and reading stops where the field stops |
| Csv.SanitizedIsSafe | backend/src/modules/export/export.service.ts:257-265 | No written field starts a formula, and a field that starts none is kept |
| Csv.AmountRoundTrip | backend/src/modules/export/export.service.ts:267-274 | An exported amount reads back to the cent |
| CsvExport.ListingUnique | backend/src/modules/transactions/transactions.repository.ts:607-609 | The export order is total, so all pages come from one listing |
| CsvExport.Repository.ListTransactionsForExport | backend/src/modules/transactions/transactions.repository.ts:547-611 | One page in the export order |
| CsvExport.Repository.StreamTransactions | backend/src/modules/export/export.service.ts:115-140 | The loop over pages yields every selected row of an unchanged table once, in order |
| CsvExport.Repository.CreateCsvExportChunks | backend/src/modules/export/export.service.ts:90-98 | The chunks together are the header and one line per row |
| CsvExport.ListingExactly | backend/src/modules/transactions/transactions.repository.ts:547-611 | A listing holds exactly the rows of the workspace in the range that are not deleted, by date, creation and id, latest first |
| CsvExport.OrdinalInTimeOrder | backend/src/modules/transactions/transactions.repository.ts:607-609 | The numbers compared order instants by time |
| CsvExport.FieldsByName | backend/src/modules/export/export.service.ts:206-244 | Each of the 14 columns holds what its name in the header promises |
| CsvExport.ColumnsDiffer | backend/src/modules/export/export.service.ts:93 | No two columns share a name |
| CsvExport.ShownReads | backend/src/modules/export/export.service.ts:206-223 | Dates and amounts read back from their columns |
| CsvExport.TagsJoined | backend/src/modules/export/export.service.ts:239 | Tags are joined by a comma and a space |
| CsvExport.ExportRoundTrip | backend/src/modules/export/export.service.ts:90-140 | Reading the file gives the header and one record per row in order, each value, sanitised, under its column's name |
| EmailOutbox.FinalChangesExactly | backend/src/shared/email/email-outbox.service.ts:115-151 | In every reachable state a sent or failed row changes exactly by the report of a live delivery of it that writes something else |
| EmailOutbox.FinalExactly | backend/src/shared/email/email-outbox.service.ts:115-151 | A sent or failed row stays for good exactly when no delivery of it is still live |
| EmailOutbox.LeftoverIsLate | backend/src/shared/email/email-outbox.service.ts:87-151 | Such a live delivery claimed the row before it was finished, and has outlived the five minutes itself unless an earlier report on the row had |
| EmailOutbox.ClaimableExactly | backend/src/shared/email/email-outbox.service.ts:87-113 | When a claim may take a row of a reachable state: pending from when it is due, claimed from five minutes after that claim, never once sent or failed, and within 23 hours |
| EmailOutbox.FailureExactly | backend/src/shared/email/email-outbox.service.ts:136-149 | After a failure in time: the seventh, or one past the age, is the last; any other makes the row due again after 5, 10, 20, 40, 80 or 160 seconds by the number of failures |
| EmailOutbox.SendExactly | backend/src/shared/email/email-outbox.service.ts:38-53 | A mail is due as soon as it is queued; a claim and a delivery write just their columns |
| EmailOutbox.OneLiveHolder | backend/src/shared/email/email-outbox.service.ts:87-113 | While the deliveries of a row report within five minutes of their claims, no two hold it in time |
| EmailOutbox.FinalForGood | backend/src/shared/email/email-outbox.service.ts:115-151 | Then sent and failed are final for that row across crashes and reclaims |
| EmailOutbox.AttemptsAreFailures | backend/src/shared/email/email-outbox.service.ts:136-149 | Then attempts equals the failed deliveries, at most seven, and the payload is blank exactly when sent |
| EmailOutbox.LateDeliveryUnsends | backend/src/shared/email/email-outbox.service.ts:115-151 | A run with one late report in which another delivery, in time itself, turns the sent mail back to pending with nothing left to send |
| EmailOutbox.RetryDelayBounds | backend/src/shared/email/email-outbox.service.ts:209-211 | Delays double from five seconds and never pass fifteen minutes; within seven attempts the cap is never reached |
| OutboxService.ReportedExactly | backend/src/shared/email/email-outbox.service.ts:115-151 | The row after a delivery, success or failure, column by column |
| OutboxService.Outbox.ClaimBatch | backend/src/shared/email/email-outbox.service.ts:87-113 | The oldest due rows, at most twenty, each claimed as it stood, the others untouched |
| OutboxService.Outbox.Deliver | backend/src/shared/email/email-outbox.service.ts:115-151 | What a success or a failure writes |
| OutboxService.Outbox.ProcessBatch | backend/src/shared/email/email-outbox.service.ts:55-73 | A batch started while another runs does nothing; otherwise each claimed row ends as its own delivery reported, in whatever order and at whatever instants they settle |
| OutboxService.Outbox.Settle | backend/src/shared/email/email-outbox.service.ts:64 | Row by row: a claimed row ends as its delivery reported, the others as the claim left them |

## Left out

- IdempotencyTheorems.ExactlyOnce: does not promise 7 days between commits, which is false; the commit gap is stated exactly in `IdempotencyGap`.
- IdempotencyGap.CommitGapWithin: starts the deadline at the claim, no earlier than the transaction itself, and takes it to bound the commit.
- EmailOutbox.OneLiveHolder: holds under the five-minute limit on the deliveries of the row, which the code does not enforce.
- OwnershipService.Tables.CreateIdempotently: does not retry after a unique-constraint error, which only a foreign writer can cause.
- CredentialService.Tables.RotateCredential: is the management call and the locked call behind it as one step with one clock reading; the step-up check between them is not modelled.
- CredentialService.Tables.Authenticate: compares whole tokens where the source compares digests in constant time.
- CategoryTree.BuiltHierarchy: orders names and ids by code unit where the source calls `localeCompare`.
- CsvExport.ListingUnique: compares ids by code unit where the database uses its collation.
- GoalPlan.TwoPlansAgree: takes years 100 to 9999.
- Locks are granted atomically and writes become visible at commit; deadlocks, lock time-outs, transaction deadlines and planner behaviour are not modelled.
- SHA-256, HMAC, argon2, AES-GCM and random tokens: a fingerprint is the covered value itself, a key hash its parts, a token the id of its credential, a payload a text.
- Quotes, delivery outcomes, clocks, fresh ids, time zones and the set of known time zones come in as arbitrary inputs; one clock never goes back.
- Audit rows of machine writes, logging and HTTP status mapping of errors.
- A stored body with missing or malformed columns: the model reads defaults where the original would read unusable values; the service writes no such body.
- Letter case, white space and code units: lower-casing is ASCII, texts compare by code unit (PostgreSQL collation and `localeCompare` in the hierarchy and export tags are replaced by it), and the length limits count characters of the model.
- Decimal rates are opaque texts with exact print and parse.
- Foreign writers of the tables, unique-constraint errors (P2002) and the retries they trigger.
- `net.isIP` is written out as a predicate on text; zone ids are refused as in the source.
- Credentials: the `disabled` status no code sets, the persistence errors and the best-effort failure of the usage stamp; a rotation is modelled with the policy the management service passes.
- `integration.status` filters and listings of the management service.
- Category calls are atomic; the source takes no lock there. Seeding of default categories is any starting forest.
- The unique index on active sibling names (`backend/prisma/migrations/0019_security_foundations/migration.sql:62`) is not part of the category model.
- Budget amounts and goal amounts are whole numbers; floating point is exact for them below 2^53. Progress percentages of goals (`toFixed`) are not modelled.
- Years 0 to 99, which JavaScript dates read as 19xx, and dates beyond 9999.
- Date texts in the browser longer than ten characters.
- Serializable isolation is modelled by its effect on one goal: two overlapping calls on a goal never both commit.
- Goal names, notes, listings and audit rows.
- The JSON export, content types, file names and date-filter parsing of the export; rows change during an export.
- A batch claim of the outbox is split into one step per row in the protocol, and the clean-up of legacy tokens is only its time stamp; an update that fails is taken to have had no effect.
- Dashboard sums, sessions, tokens, lockout, payment sources, currency conversion and the web pages would add only easier members.
