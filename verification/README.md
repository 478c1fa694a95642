# buktio: verified models of the control plane's protocols

Dafny models of the parts of buktio whose guarantees hold over unbounded runs: the audit hash chain, the
resumable bucket-to-bucket copy, the Postgres-to-SQLite statement translation, the provider cache and cluster
removal, the Garage layout protocol, the object trash, the traffic aggregator, bucket emptying, membership
guards, the billing ledger, the storage series and the version parser.

A concurrent protocol is a state machine: a `Step` datatype, a total function `Next` in which a step that
cannot happen now changes nothing, and `Run` over any sequence of steps. Theorems about `Run` therefore cover
every interleaving, crash, lost reply and restart. Sequential code is a class or a method with loops, and its
contract is tied to the same specification functions. `dafny verify dfyconfig.toml` checks everything.

| file | what it models |
|---|---|
| `Text.dfy` | decimal numerals, fixed-width numerals, cutting at a separator |
| `AuditText.dfy`, `AuditChain.dfy`, `AuditLog.dfy` | hashed text, chain verifier, concurrent writers |
| `BucketCopy.dfy` | replication and migration workers |
| `SqlRewrite.dfy`, `SqlPatterns.dfy`, `SqlTokens.dfy`, `SqlPasses.dfy`, `SqlMeaning.dfy` | the six rewrite rules, their regular expressions, the passes on token lists, expression trees and their values |
| `Uuid.dfy` | UUID texts as Postgres reads and prints them |
| `Registry.dfy` | provider cache and cluster removal |
| `Layout.dfy` | layout stage, read and apply; node bootstrap |
| `Trash.dfy` | moving objects to the trash and back |
| `Traffic.dfy` | traffic counters on the heap |
| `EmptyBucket.dfy` | emptying and deleting a bucket |
| `Members.dfy` | invitations, roles, last owner, seats |
| `Billing.dfy` | usage ledger and posts |
| `Usage.dfy` | storage series |
| `Version.dfy` | Garage versions |

Where code and documentation disagree the model follows the code:

- The progress save of a copy job writes the status `running` unconditionally, so a cancellation is not final
  (`BucketCopy.CancelIsFinalExactlyWithoutWorkers`), and a worker notices one at the next page, not the next object.
- The chain verifier does not look at the first row's previous hash, so a kept block of rows still verifies
  (`AuditChain.DeletionVerdict`).
- Emptying a bucket stops silently after a thousand rounds (`EmptyBucket.BucketService.EmptyBucket`).
- Batch deletions discard the per-key errors of the reply, so emptying reports success with objects left exactly
  when its last round refused a key (`EmptyBucket.BucketService.EmptyBucket`). Once the backend bucket is gone
  and the row update failed, the row can never be deleted (`EmptyBucket.BucketService.DeleteWithoutBackend`).
- An upload between the copy and the delete of a trash request, or before the copy of a restore, is lost
  (`Trash.WriteSurvivesTrashExactly`, `Trash.WriteSurvivesRestoreExactly`), and so is an object whose
  decoded key names another one (`Trash.DecodedMoveKeepsExactly`).
- A lookup by another spelling of an id finds its row on Postgres only (`SqlMeaning.UuidLookupsAgreeExactly`).
- A trash request can lose an object, when a restore overlaps it, exactly when it names a key a second time with
  only existing objects before that (`Trash.RequestIsSafeExactly`).
- The store compares UUID values, the last-owner guard and the provider cache compare their spelling. So a
  removal or demotion that spells the last owner's id in upper case is not blocked
  (`Members.SpellingLosesOwnerExactly`), and removing a cluster by another spelling leaves its provider cached
  (`Registry.RemovalProtectsExactly`).
- The last-owner guard ignores a failed member listing, and accepting an invitation is not guarded
  (`Members.OwnerIsLostExactly`, `Members.AcceptanceLosesOwnerExactly`).
- A caller whose membership cannot be read acts as admin, which is the one way to raise the highest rank
  (`Members.RankRisesExactly`).
- The seat limit has three ways past it, overlapping invitations being one (`Members.LimitIsExceededExactly`,
  `Members.OverlappingInvitationsExceedLimit`).
- Recorded usage is lost exactly when the processor refuses the post, a reporter crashes between the ledger row
  and the post, or the reply to the insert is lost (`Billing.UsageIsLostExactly`); and a day is billed at what
  its first report read (`Billing.DayIsBilledInFullExactly`).
- A cluster deletion that takes effect but reports an error leaves a cached provider resolvable until a restart
  (`Registry.UnacknowledgedDeleteResolvesExactly`, `Registry.UnacknowledgedDeleteStaysCached`).

## Model

| member | source | states |
|---|---|---|
| `Text.DecimalRoundTrip` | internal/repository/audit.go:19-20 | reading a printed decimal gives the number back |
| `Text.DecimalIsShortest` | internal/repository/audit.go:19-20 | no leading zeros |
| `AuditText.TimeInjective` | internal/repository/audit.go:21 | the RFC 3339 time text with nanoseconds determines the instant |
| `AuditText.TimeLayout` | internal/repository/audit.go:21 | each calendar field at its place, with the separators of RFC 3339 section 5.6 |
| `AuditText.FractionLayout` | internal/repository/audit.go:21 | the fraction is left out exactly for whole seconds, else a point and the nanoseconds without trailing zeros |
| `AuditText.CanonicalLayout` | internal/repository/audit.go:19-21 | the nine fields in their order between bars |
| `AuditText.CanonicalInjective` | internal/repository/audit.go:16-23 | the hashed text determines every field of an event whose fields before the metadata hold no bar, whatever the metadata |
| `AuditText.SingleFieldEditChangesText` | internal/repository/audit.go:16-23 | any change of a single hashed field changes the text, bars or not |
| `AuditText.TextDeterminesId` | internal/repository/audit.go:19-20 | the id can always be recovered from the text |
| `AuditText.BarCanMove` | internal/repository/audit.go:19-21 | the bar condition is needed: a bar in the action can move into the target type unnoticed |
| `AuditChain.VerifyRows` | internal/repository/audit.go:192-219 | the verification loop computes the verdict defined on the whole chain |
| `AuditChain.VerdictMeaning` | internal/repository/audit.go:168-174 | OK exactly when every link and hash is right; otherwise the first broken row, the link checked before the hash, and the number of rows before it |
| `AuditChain.IntactIsUnforked` | internal/repository/audit.go:126-128 | in a chain that verifies no two rows have the same predecessor |
| `AuditChain.DeletionVerdict` | internal/repository/audit.go:176-209 | deleting rows from a valid chain goes unnoticed exactly when the kept rows are one contiguous block; otherwise the verifier stops at the first kept row after the first gap with a prev_hash mismatch |
| `AuditChain.OneDeletedRow` | internal/repository/audit.go:205-209 | deleting one row is found at the row after it, unless it is the first or the last |
| `AuditChain.EditVerdict` | internal/repository/audit.go:205-214 | exact verdict after replacing the content of one row of a valid chain |
| `AuditChain.EditIsDetected` | internal/repository/audit.go:205-214 | editing one hashed field of one row gives a row_hash mismatch at that row |
| `AuditChain.RehashVerdict` | internal/repository/audit.go:205-214 | an edit whose hash is recomputed is found at the next row's link, and only goes unnoticed in the last row |
| `AuditLog.CommitKeepsInv` | internal/repository/audit.go:144-165 | a commit keeps every organisation's chain unforked and every open transaction's view of its last hash current |
| `AuditLog.RunKeepsInv` | internal/repository/audit.go:121-166 | the invariant of the concurrent writers holds after every run |
| `AuditLog.ConcurrentWritesNeverForkTheChain` | internal/repository/audit.go:121-220 | in every interleaving over any organisations, with rollbacks and lost ids, each organisation's rows form one unforked chain and verification succeeds having checked all of them |
| `AuditLog.CommittedRowsStay` | internal/repository/audit.go:121-166 | later steps only append to what readers saw |
| `AuditLog.RowsSayWhatWasAsked` | internal/repository/audit.go:153-157 | in every run each new row carries, field by field, the request of a transaction of the run and the metadata and time of its insert |
| `AuditLog.SoloCall` | internal/repository/audit.go:121-166 | the statements of one call, run without overlap, append exactly one row that carries the request's fields, the last hash and its own hash |
| `AuditLog.AuditStore.WriteAudit` | internal/repository/audit.go:121-166 | success appends one row to its organisation's chain, with the request's fields, the last hash and the hash of its text; a failed statement leaves every chain as it was |
| `AuditLog.AuditStore.VerifyAuditChain` | internal/repository/audit.go:179-220 | the verdict on whatever the table holds: OK exactly for an intact chain, and always on a store written through WriteAudit |
| `BucketCopy.PutKeepsInv` | internal/service/replication.go:147-152 | writing any source object keeps everything that any worker or the saved cursor relies on |
| `BucketCopy.StepKeepsInv` | internal/service/replication.go:127-161 | every action of every worker keeps the invariant |
| `BucketCopy.CompletedJobHasCopiedEverything` | internal/service/migrations.go:160-190 | whatever crashes, restarts and concurrent workers occur, everything before the saved cursor is in the destination, a completed job has copied every object at its size (a migration byte for byte), and nothing else was written |
| `BucketCopy.CancelIsFinalExactlyWithoutWorkers` | internal/repository/migrations_repo.go:112-117 | a cancelled job is sure to stay cancelled exactly when no worker is running it |
| `BucketCopy.EveryJobCanComplete` | internal/service/migrations.go:118-190 | a job that is neither completed nor cancelled can be completed from wherever crashes, failures and other workers left it |
| `BucketCopy.CountersAreExact` | internal/repository/replication.go:96-102 | with one worker and no silently lost save, the counters equal the objects before the cursor plus the whole source once per last-page save |
| `BucketCopy.HandleMeaning` | internal/service/replication.go:139-153 | an object is written, or left alone because the head request succeeds and the destination holds it at the same size; the worker counts just that |
| `BucketCopy.CountersTellWhatHappened` | internal/service/replication.go:127-161 | in every run with one worker the saved and running counters are an observer's: copied the objects written, skipped those left alone, bytes the sizes written |
| `BucketCopy.AfterMeaning` | internal/service/replication.go:138-154 | object by object, what a range of the listing leaves in the destination |
| `BucketCopy.CopyWorker.CopyPage` | internal/service/replication.go:138-154 | destination and counters after the page are exactly those of its objects, each written or left alone; a failure stops at an object that could not be written |
| `BucketCopy.CopyWorker.CopyPages` | internal/service/replication.go:127-161 | the loop from the saved cursor to the last page leaves the destination and the counters of all remaining objects |
| `BucketCopy.CopyWorker.Work` | internal/service/replication.go:100-164 | the page loop terminates; from any saved cursor it completes with exactly the destination and the counters of the remaining objects, or fails keeping what it saved |
| `SqlRewrite.CountsNeverGrow` | internal/repository/sqlite.go:20-26 | no rule adds a dollar, colon or parenthesis, and each of the first three leaves fewer of its own when it matches anywhere |
| `SqlRewrite.UnchangedExactlyWithoutPatterns` | internal/repository/sqlite.go:36-44 | for every statement the translation changes nothing exactly when none of the six patterns occurs |
| `SqlPatterns.ScannerTakesLongestMatch` | internal/repository/sqlite.go:20-25 | each rule's scanner finds a match exactly where its regular expression has one, and takes the longest |
| `SqlPatterns.ReplaceAllMeaning` | internal/repository/sqlite.go:36-44 | a pass cuts the statement, left to right, into the matches of its expression and the characters where none starts, and replaces the matches |
| `SqlPasses.Pass` | internal/repository/sqlite.go:36-44 | one pass over the text of a token list rewrites exactly the tokens of its rule and no others |
| `SqlPasses.TranslationIsTokenwise` | internal/repository/sqlite.go:36-44 | the six passes in sequence rewrite every token to its SQLite form, undisturbed by each other |
| `SqlMeaning.TreesPrintToStatements` | internal/repository/sqlite.go:28-35 | every expression tree prints to a token list the passes can handle |
| `SqlMeaning.TextTranslationIsTreeTranslation` | internal/repository/sqlite.go:36-44 | translating the Postgres text of a tree gives exactly the SQLite text of the translated tree |
| `SqlMeaning.LiteralConditionIsExact` | internal/repository/sqlite.go:36-44 | a string literal survives exactly when it contains none of the patterns |
| `SqlMeaning.SameParameters` | internal/repository/sqlite.go:29 | the translated tree uses the same parameter numbers in the same order |
| `SqlMeaning.LikeAgrees` | internal/repository/sqlite.go:32 | ILIKE and SQLite's LIKE agree on texts whose case folding is ASCII folding and patterns without backslash |
| `SqlMeaning.TranslationKeepsValue` | internal/repository/sqlite.go:36-44 | the translated tree has the same value under SQLite's rules as the original under Postgres's, NULLs included |
| `SqlMeaning.CastsAreDropped` | internal/repository/sqlite.go:30 | whatever the casts: the translated tree has the value the original would have if casts changed nothing |
| `SqlMeaning.UuidCastIsExact` | internal/repository/sqlite.go:21 | dropping a cast to uuid keeps a text's value exactly when the text is in the stored form, lower case with four hyphens |
| `SqlMeaning.UuidLookupsAgreeExactly` | internal/repository/clusters.go:98-100 | a lookup by id gives the same answer on both databases exactly when the id is in the stored form or is not that row's |
| `Uuid.KeptExactlyInStoredForm` | internal/repository/clusters.go:73 | among all texts Postgres reads as a UUID, exactly those in the stored form are printed as they were written |
| `Uuid.StoredIsStoredForm` | internal/repository/clusters.go:73 | whatever a text denotes is stored in that form, and storing it again changes nothing |
| `Uuid.HyphenatedIsStoredInLowerCase` | internal/repository/clusters.go:73 | the usual spelling in either case, also in braces, is stored in lower case |
| `SqlMeaning.EscapesDiffer` | internal/repository/sqlite.go:32 | what an escaped wildcard matches in either dialect, on every text: never the same one |
| `Registry.BuildMeaning` | internal/cluster/registry.go:100-138 | the provider's fields in terms of the row, its two secrets opened, the endpoint for signed URLs; and exactly which error occurs when |
| `Registry.SoloLookup` | internal/cluster/registry.go:41-57 | an undisturbed lookup of an uncached id answers what the row gives, caches a provider and frees the lock |
| `Registry.MoveKeepsInv` | internal/cluster/registry.go:41-57 | a step of one call leaves every other call's knowledge and every cache entry in order |
| `Registry.RemovedClustersNeverResolve` | internal/service/clusters.go:192-218 | in every interleaving a lookup that starts after a removal by the same spelling returned never resolves the cluster, resolved providers are built from the row, and a cached cluster is live, awaiting invalidation, or was deleted by a statement that reported an error or by a removal that spelled its id otherwise |
| `Registry.DeletedResolvesExactly` | internal/cluster/registry.go:41-57 | a deleted cluster can still be resolved by an id exactly when that spelling is cached and not being dropped, or a lookup by it holds the row |
| `Registry.RemovalProtectsExactly` | internal/service/clusters.go:210-215 | from the moment a removal returns, every answer about a spelling of the cluster is an error exactly when the removal used that spelling or it was not cached |
| `Registry.RemovalByOtherSpellingLeavesEntry` | internal/service/clusters.go:192-218 | a whole removal by another spelling succeeds and leaves the cached cluster resolvable |
| `Registry.UnacknowledgedDeleteResolvesExactly` | internal/repository/clusters.go:140-144 | after a deletion that took effect but reported an error, a spelling still resolves exactly when it was cached or a lookup held its row |
| `Registry.UnacknowledgedDeleteStaysCached` | internal/service/clusters.go:210-215 | after such a deletion a cached spelling stays cached until a restart, and lookups are answered from the cache |
| `Registry.ClusterService.Provider` | internal/cluster/registry.go:41-57 | the cache is transparent, except for an entry whose cluster was deleted; the provider has the row's settings and secrets |
| `Registry.ClusterService.Invalidate` | internal/cluster/registry.go:93-97 | drops one entry |
| `Registry.ClusterService.RemoveCluster` | internal/service/clusters.go:192-218 | succeeds exactly for a live, non-primary, empty cluster; drops the entry of the spelling used, and says exactly which entries are then stale |
| `Layout.StagedChange` | internal/storage/garage/admin_calls.go:48-52 | staging keeps, per node, the last change asked for, and leaves other nodes' changes |
| `Layout.UndisturbedEdit` | internal/garagemanager/layout.go:40-56 | an undisturbed edit wins the next version, at which its nodes have the roles asked for last and all others the planned ones |
| `Layout.SuccessfulEditsAreInForce` | internal/garagemanager/layout.go:40-56 | over all interleavings each successful apply raises the version by one, returned versions ascend, and a successful call's change is in force at the version it returns unless someone else replaced or reverted it |
| `Layout.BootstrapsApplyAtMostOnce` | internal/garagemanager/bootstrap.go:100-124 | repeated, crashing bootstraps of one node apply at most one version in total, none if the node had a storage role |
| `Layout.OverlappingBootstrapsAreBounded` | internal/garagemanager/bootstrap.go:100-124 | overlapping bootstraps of one node apply at most as many versions as passed the role check before the first apply |
| `Layout.OverlappingBootstrapsApplyTwice` | internal/garagemanager/bootstrap.go:100-124 | two overlapping bootstraps apply two versions |
| `Layout.NodeHasStorageRole` | internal/garagemanager/bootstrap.go:162-169 | the search finds the node exactly when it is listed with a capacity |
| `Layout.LayoutClient.StageAndApplyRoles` | internal/garagemanager/layout.go:40-56 | the next version holds the wanted role of every changed node and the planned role of every other; empty changes are refused; failures apply at most once |
| `Layout.LayoutClient.AddOrUpdateNode` | internal/garagemanager/layout.go:60-75 | the node has the role asked for, a storage role exactly when the capacity is positive |
| `Layout.LayoutClient.RemoveNode` | internal/garagemanager/layout.go:80-85 | the node has no role |
| `Layout.LayoutClient.Bootstrap` | internal/garagemanager/bootstrap.go:73-139 | success means the node has a storage role, with the zone and capacity asked for or the defaults; a node that has one, or an engine below 2.0, is left untouched |
| `Trash.TrashKeyInjective` | internal/service/trash.go:40 | the trash key determines the time and the key |
| `Trash.NothingIsLost` | internal/service/trash.go:29-95 | however trash and restore requests overlap, fail or crash, every original object is present with its content under its own key or a trash key of its own, and nothing else is stored |
| `Trash.RepeatedKeyCanBeLost` | internal/service/trash.go:35-53 | a run that loses the object, for every request and its first repeated key within reach |
| `Trash.RequestIsSafeExactly` | internal/service/trash.go:29-56 | a request loses nothing under any restores and crashes exactly when no key is repeated within its reach |
| `Trash.WriteSurvivesTrashExactly` | internal/service/trash.go:41-46 | an upload overlapping the move of its key survives exactly when it does not fall between the copy and the delete, or stores what was copied |
| `Trash.WriteSurvivesRestoreExactly` | internal/service/trash.go:84-89 | an upload to the key being restored survives exactly when the copy was made before it, or stores the same, or nothing is left to restore |
| `Trash.DecodedMoveKeepsExactly` | internal/storage/s3core/client.go:221-228 | with a copy source that the backend decodes, the object is lost exactly when its decoded name is another object with other content |
| `Trash.TrashAllMoves` | internal/service/trash.go:35-53 | trashing moves exactly the requested objects |
| `Trash.TrashThenRestore` | internal/service/trash.go:29-95 | trashing distinct present keys and restoring the rows in any order gives the bucket back |
| `Trash.TrashService.TrashObject` | internal/service/trash.go:36-52 | one move passes through the bucket, the bucket with the copy, and the bucket with the object moved, in that order only |
| `Trash.TrashService.TrashObjects` | internal/service/trash.go:29-56 | success moves all keys and writes their rows in order; wherever it stops, the keys before are moved with their rows and nothing is lost |
| `Trash.TrashService.RestoreObject` | internal/service/trash.go:72-95 | success puts the object back and removes the row; wherever it stops the content is there, and the requests that arrived say exactly what is stored |
| `Traffic.TrafficIsConserved` | internal/proxy/proxy.go:32-65 | in every interleaving what was added per key equals what was flushed, dropped, being drained and live |
| `Traffic.OnlyFailedFlushesDrop` | internal/proxy/proxy.go:133-146 | over every run only failed flushes drop traffic and only successful ones flush it |
| `Traffic.Aggregator.Add` | internal/proxy/proxy.go:32-43 | counts one request and touches only the current map and its counters |
| `Traffic.Aggregator.ReadSwapped` | internal/proxy/proxy.go:60-63 | requests arriving after the swap do not touch the swapped-out counter that is read |
| `Traffic.Aggregator.Drain` | internal/proxy/proxy.go:54-65 | the samples are exactly the old counters and the new counters exactly the requests that arrived meanwhile |
| `EmptyBucket.BucketService.DeletePage` | internal/service/buckets.go:162-180 | a round fails, finishes or goes on, each exactly when |
| `EmptyBucket.BucketService.EmptyBucket` | internal/service/buckets.go:160-183 | with pages of any size success before the budget leaves exactly what the last round refused, so the bucket is empty exactly when it refused nothing; a bucket of less than a page is done in one round; with full pages and complete deletions exactly the objects beyond a million are left |
| `EmptyBucket.BucketService.DeleteRepeatedly` | internal/service/buckets.go:133-157 | repeating the deletion is enough exactly when there is a call for every million objects |
| `EmptyBucket.BucketService.DeleteBucket` | internal/service/buckets.go:133-157 | the row is deleted only after the backend bucket, which is deleted only when empty; a failed round stops the deletion; when all requests succeed it fails exactly if the last round refused a key; a bucket above a million objects needs further calls; without the backend bucket no call succeeds |
| `EmptyBucket.BucketService.DeleteWithoutBackend` | internal/service/buckets.go:145-153 | after the backend bucket is gone and the row is not, repeating the deletion never deletes the row |
| `Members.GuardLastOwner` | internal/service/members.go:174-189 | the loop blocks exactly a listed owner when at most one owner is listed |
| `Members.GuardIsExact` | internal/service/members.go:174-189 | on a complete listing the guard blocks exactly the only live owner, by the stored spelling of the id |
| `Members.OwnerIsLostExactly` | internal/service/members.go:134-222 | whatever the listing and the spelling, the exact condition under which a role change, removal or acceptance loses the last live owner |
| `Members.SpellingLosesOwnerExactly` | internal/service/members.go:180 | with a complete listing a change or removal loses the last live owner exactly when it spells the id otherwise than stored |
| `Members.OtherSpellingLosesOwner` | internal/repository/members.go:69-85 | such an input, for every other spelling |
| `Members.OwnerIsKept` | internal/service/members.go:134-171 | over every sequential run of role changes and removals that spell ids as stored, an organisation with a live owner keeps one |
| `Members.FailedListingLosesOwner` | internal/service/members.go:175 | a failed listing is such a case |
| `Members.OverlappingRemovalsLoseOwner` | internal/service/members.go:158-171 | two removals that both read the listing first can leave no owner |
| `Members.AcceptanceLosesOwnerExactly` | internal/service/members.go:193-219 | an acceptance loses the last live owner exactly when the invitation is pending, for a lesser role, and its account is that owner's |
| `Members.RankRisesExactly` | internal/service/tenant_context.go:48-62 | a step raises the highest rank among members and invitations exactly when a caller without a readable membership grants a role above it |
| `Members.NoEscalation` | internal/service/members.go:57-63 | no run raises the highest rank unless such a step occurs in it |
| `Members.CeilingByName` | internal/service/members.go:42-63 | by name: owners grant every role, admins all but owner, members member and viewer, all others viewer |
| `Members.OwnersAreGranted` | internal/service/members.go:57-63 | whoever becomes owner, or is invited to, was granted it by one whose role is owner (or a platform administrator without a membership), or accepted such an invitation |
| `Members.OwnersMayPromote` | internal/service/members.go:138-152 | a change to owner by one who acts as owner is never refused |
| `Members.DefaultCallersActAsAdmin` | internal/service/tenant_context.go:53-59 | a caller without a readable membership may grant all but owner, a platform administrator all |
| `Members.OnlyOwnersMakeOwners` | internal/service/members.go:57-63 | in every run of calls by members, an organisation without owners and invitations to become one never gets one, whatever its admins do; likewise for admins and for members |
| `Members.GrantsStayWithinCeiling` | internal/service/members.go:57-63 | in every run each membership and invitation carries a role that its granter's may grant, by name |
| `Members.OverlappingInvitationsExceedLimit` | internal/service/members.go:107-120 | two invitations that both counted before either landed exceed the limit by one |
| `Members.LimitIsExceededExactly` | internal/service/members.go:107-114 | a step exceeds the seat limit exactly when all seats are used and it takes one of three ways past the check |
| `Members.SeatsStayWithinLimit` | internal/service/members.go:89-131 | over every run without those, members plus pending invitations stay within the limit |
| `Members.MemberService.ListMembers` | internal/repository/members.go:22-42 | the members with a live account, once each, with their roles |
| `Members.MemberService.InviteMember` | internal/service/members.go:89-131 | creates the invitation exactly when the address is valid, the role is one of the four, the sender may grant it by name, and a seat is free |
| `Members.MemberService.AcceptInvite` | internal/service/members.go:193-222 | gives the user the invited role and consumes the invitation |
| `Members.MemberService.ChangeMemberRole` | internal/service/members.go:134-155 | changes the role exactly when it is one of the four, the caller may grant it by name and the guard does not refuse; with a listing and the stored spelling a live owner stays |
| `Members.MemberService.RemoveMember` | internal/service/members.go:158-171 | removes the member unless it is the only live owner, spelled as stored |
| `Billing.IdemKeyInjective` | internal/service/billing.go:101 | the idempotency key determines organisation, metric and day when the first two hold no colon |
| `Billing.ColonsCollide` | internal/service/billing.go:101 | with colons different subjects share a key |
| `Billing.PostedAtMostOnce` | internal/service/billing.go:97-109 | however reporters overlap, repeat or crash, each subject is posted at most once, with the quantity of its ledger row |
| `Billing.SoloReport` | internal/service/billing.go:97-109 | an undisturbed report of a new subject is recorded, posted once and delivered |
| `Billing.LedgerOnlyGrows` | internal/repository/billing.go:115-124 | ledger rows never change |
| `Billing.SuppressedOnlyByItself` | internal/repository/billing.go:115-124 | a report is suppressed exactly by a row of its own subject |
| `Billing.UsageIsLostExactly` | internal/service/billing.go:97-109 | in every run a key ends up recorded but neither delivered nor due exactly when the processor refused its post, a reporter crashed with it due, or the reply to its insert was lost |
| `Billing.DeliveredExactlyWhenNotLost` | internal/service/billing.go:97-109 | when nothing is under way, the processor has taken a recorded subject's usage exactly when no step lost it |
| `Billing.FailuresLoseUsage` | internal/service/billing.go:101-108 | a refused post, a crash after the insert, and a lost reply reach that state |
| `Billing.DroppedStaysDropped` | internal/service/billing.go:101-108 | usage lost that way is never delivered |
| `Billing.FirstReportFixesQuantity` | internal/service/billing.go:80-91 | a day's row holds the quantity of the first report that landed, whatever later passes read |
| `Billing.DayIsBilledInFullExactly` | internal/service/billing.go:155-174 | a post never exceeds the day's final usage, and equals it exactly when the first landed report already read it |
| `Billing.BillingService.RecordUsageReport` | internal/repository/billing.go:115-124 | inserts exactly when the key is free and says so |
| `Billing.BillingService.ReportMetric` | internal/service/billing.go:97-109 | posts exactly when the item is set and the row is new; delivered is what the processor accepts |
| `Billing.BillingService.BillingReportOnce` | internal/service/billing.go:71-93 | every new post bills one of the organisations: stored GiB, outgoing GiB or requests, to that metric's item, under org:metric:day; every new row has its post, and every billed metric a row |
| `Usage.DriversAgreeExactly` | internal/repository/usage.go:71-96 | the two interval formulas agree exactly from the epoch on, and before it on whole multiples of the step |
| `Usage.ChosenIsLatest` | internal/repository/usage.go:73-76 | row number one is exactly the latest snapshot of its bucket in its interval |
| `Usage.SeriesSumsLatestPerBucket` | internal/repository/usage.go:69-82 | for each interval the query's sum is the sum over buckets of the latest snapshot |
| `Usage.AtMost49Points` | internal/service/usage.go:49-58 | snapshots of the window give at most 49 points, for every number of hours |
| `Usage.StepIsExact` | internal/service/usage.go:50-56 | five minutes for windows up to three hours, else a 48th of the window |
| `Usage.EveryIntervalIsAPoint` | internal/repository/usage.go:69-82 | snapshots in n intervals give at least n points |
| `Version.ParsePrinted` | internal/storage/garage/version.go:28-58 | parsing a printed version gives it back, with or without "v", surrounding white space and any suffix |
| `Version.ParsedIsNatural` | internal/storage/garage/version.go:31-58 | no text parses to a negative component, and every accepted text's version reprints to itself |
| `Version.ParseMajor` | internal/storage/garage/version.go:47-56 | a missing minor and patch are zero |
| `Version.ParseMajorMinor` | internal/storage/garage/version.go:47-56 | a missing patch is zero |
| `Version.ParseThreeExactly` | internal/storage/garage/version.go:41-57 | three components are accepted exactly when each is a number in range, else the first bad one decides the error; more are ignored |
| `Version.BlankIsEmpty` | internal/storage/garage/version.go:32-36 | white space alone, or with a "v", is refused as empty |
| `Version.AtLeastIsNumericOrder` | internal/storage/garage/version.go:61-66 | the comparison is the numeric order of major and minor |
| `Version.SupportedExactlyFromTwo` | internal/storage/garage/version.go:70-80 | on every accepted text the support check fails exactly below 2.0 |

## Left out

- AuditChain.EditIsDetected: SHA-256 is a free constructor over the previous digest and the text, so collisions, and the missing separator between the two, are not modelled.
- The audit model takes the stored text of a row as written: letter case of UUIDs, and columns set to NULL when a user is deleted, are not modelled; nor is the ignored error of the previous-hash query on SQLite.
- Registry.ClusterService.Provider: an id that is not a UUID finds no row; the error Postgres reports for it is not told apart.
- AuditLog.AuditStore.WriteAudit: JSON encoding of the metadata is the database's and is a parameter.
- The copy model assumes a stable source, a listing whose truncated pages carry a token, and no other writer in the destination; opening the job (decryption, bucket and cluster lookup) and metering are not modelled.
- BucketCopy.CopyWorker.Work: runs one worker whose progress saves arrive, without a cancellation meanwhile; cancellations, crashes and lost saves are steps of the state machine.
- SqlMeaning.TextTranslationIsTreeTranslation: covers conditions (columns, parameters, literals, casts, now(), NULL tests, ILIKE, the DISTINCT tests, comparison, AND, OR, NULLIF), with parentheses around compounds; whole SELECT statements are covered as token lists.
- SqlMeaning.TranslationKeepsValue: assumes casts that do not change the value they get (UuidCastIsExact says when that is so for uuid; CastsAreDropped needs no such condition), and for ILIKE the condition of LikeAgrees; the format of CURRENT_TIMESTAMP is not modelled.
- Registries of several processes: a removal invalidates the cache of its own process only, and only that is modelled. The default cluster of an organisation and the primary cluster lookup would only add easy members.
- Layout.BootstrapsApplyAtMostOnce: a request delayed in the network past its caller's crash is not modelled.
- Layout.LayoutClient.Bootstrap: the health wait, the choice of the primary node and the system key are not modelled.
- Trash.NothingIsLost: one bucket, no other writer (WriteSurvivesTrashExactly and WriteSurvivesRestoreExactly say what one loses), copies of the key they name (DecodedMoveKeepsExactly), keys outside the reserved prefix, and request times that differ; without the last two a trash key is not the operation's own. Purging deletes for good and is not modelled.
- Trash.TrashService.RestoreObject: a restore called with the id of another bucket is not modelled.
- Traffic.Aggregator.Add: counters are unbounded integers, so 64-bit overflow is not modelled.
- EmptyBucket.BucketService.DeleteRepeatedly: the caller who repeats the request is outside the repository.
- EmptyBucket.BucketService.EmptyBucket: an undelimited listing has no prefix entries, so the filter for them is not modelled; a failed batch deletion removes a first part of its page.
- Members.OwnerIsKept: sequential calls; OverlappingRemovalsLoseOwner shows why. Account deletion, single sign-on provisioning and the session returned by an acceptance are not modelled.
- Billing.PostedAtMostOnce: counts requests to the processor, taken or not; the date format, the processor's own use of the idempotency key, and webhooks are not modelled.
- Usage.AtMost49Points: overflow of the duration for very large hour counts is not modelled; on SQLite the window starts after the epoch.
- Version.AtLeastIsNumericOrder: for non-negative components, the only ones parsing yields.
- HTTP handlers, the web interface, commands, authentication and encryption, authorization and entitlements, webhooks, mail, backups and the data conversion tool: request plumbing or code whose behaviour rests on services outside the repository.
