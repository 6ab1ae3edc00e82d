# A verified model of the link-management backend

This project models the parts of the backend where correctness is hardest to see by reading one
function: guarded MongoDB updates used as a concurrency protocol, set-based rewrites that must agree
with simpler per-item rules, and loops whose termination or result depends on the order of writes.
Every `update_one` and `find_one_and_update` is one atomic step, every `update_many` is a sweep over
documents, clocks are explicit values, and every call into the outside world (mail, edge, DNS, cache
server, task body) is a parameter that may succeed or fail.

| module | models |
|---|---|
| `AccountStore` | the user document and its guarded updates |
| `DeletionProtocol` | deletion requests, restore links, password restores and their interleavings |
| `LinkFate` | what deletes, scrubs and blocks in any order make of one link |
| `ErasureProtocol` | the erasure cascade under overlapping runners, crashes and expired leases |
| `ErasureSweep` | one erasure call and the sweep over due accounts |
| `HostBlocks`, `BlockRace` | safety blocks and unblocks of destination hosts, per-link blocks; host blocks against bulk status changes |
| `LinkStore`, `BulkRule`, `BulkUrls`, `BulkMove` | the bulk link operations, their verdicts, the redirect cache |
| `SingleUrls` | the single-item update and delete, and when a bulk operation is the same |
| `ScheduledTasks` | claims, fenced finishes and schedule changes of scheduled tasks |
| `WebhookDeliveries` | delivery rows, terminal writes, the pending-slot counter |
| `StatsQuery` | the statistics filter compiler with an evaluator for its query language |
| `BodyReader` | the incremental marker search over a streamed body |
| `DomainDrain` | the paged erasure of custom domains |
| `FeedSwap` | replacing a stored feed in batches |
| `DestBackfill` | destination stamps and the keyset-paginated passes that write them |
| `ReportTriage` | report triage and the merge into safety events |

Classes carry the fields the source updates in place and loops where the source loops; each method is
proved against specification functions, and the lemmas state what holds over those functions for all
inputs, all interleavings or all runs. `dafny verify dfyconfig.toml` checks everything.

## Where the code does less than its documentation says

Each of these is kept in the model as the code has it, with the exact condition under which the
documented behaviour holds.

- **Host blocks reach links they do not concern.** The second update of `block_active_by_dest_host`
  spreads `dest_host_filter(host)`, whose only key is `$or`, into a dictionary that names `$or` again
  (app/repositories/url_repository.py:857-866). The destination clause is lost, so every
  reason-stamped, cause-tracked blocked link gains the host as a cause. A link then follows "blocked
  iff one of its hosts is blocked" throughout a run iff no host it does not route to is blocked while
  one of its own is (`HostBlocks.ExactThroughoutIff`); `HostBlocks.UnblockingEveryHostCanStrandALink`
  is a run that leaves a link blocked for good, and `HostBlocks.EndsBlockedIff` says over
  all runs when that happens. Links are never under-blocked
  (`HostBlocks.NeverUnderBlocked`). The order of concurrent blocks shows in cause sets for the same
  reason (`HostBlocks.OrderShowsOnOtherLinks`).
- **Bulk operations are not quite loops.** The single-item update refuses an expiry at or before a
  link's start (app/services/url_service.py:1313-1317), refuses a tag list that still holds a deleted
  tag (which takes a tag write racing the deletion, as `TagService.delete` pulls the tag from every
  link first, app/services/tag_service.py:95-96), answers `forbidden` for somebody else's link, and checks the tag cap before the block; the bulk
  path does none of these. Both agree iff no requested link is such a case
  (`SingleUrls.BulkMatchesSingleIff`, `BulkUrls.QuietBulkIsTheSingleLoopIff`).
- **A bulk status change can lose a safety block.** Its update names ids and owner only
  (app/repositories/url_repository.py:437-439), so a link blocked between the load and the write is
  written all the same. Over every interleaving a block survives iff it comes after the last write that
  reached the link and is held from there (`BlockRace.RaceEndsBlockedIff`,
  `BlockRace.DeactivationLosesTheBlock`).
- **A tag filter compares spellings of link ids.** Explicit `url_id` values are intersected as strings
  with canonical ones (app/services/stats_service.py:278-280), so another accepted spelling of a
  tagged link matches nothing (`StatsQuery.TagFilterIsTheIntersectionIff`).
- **A null bucket without a sentinel cannot be filtered.** Clicks without a browser, os or city are
  shown as "Unknown" (app/shared/aggregation_strategies.py:99-103) and no filter selects them
  (`StatsQuery.FilterSelectsItsBucketIff`).
- **An erasure scrubs and deletes in separate writes**, for all links and once more for each custom
  domain. A link survives iff it is blocked at every delete that reaches it, by any runner, and keeps its
  personal data iff it is not blocked at any scrub that reaches it
  (`ErasureProtocol.GoneMeansErased`); `ErasureProtocol.PiiCanOutliveTheAccount` is a run from a fresh
  account in which a link blocked between scrub and delete survives with its data. **Clicks stamped
  before a link was claimed** outlive the account iff no runner that had listed the link came to its
  chunk of click deletes (the same theorem), as after a crash that follows the link deletion
  (`ErasureProtocol.PreClaimClicksCanOutliveTheAccount`); retained links always lose theirs
  (`ErasureProtocol.RetainedLinksHaveNoClicks`).
- **A restore link can be lost to an earlier account.** The erasure cascade deletes tokens by user or by
  email, so one still running for an earlier account takes the restore token of a new account at the
  same address iff it deletes them after the token was stored (`DeletionProtocol.RestoreProofStandsIff`,
  `DeletionProtocol.StaleErasureLosesTheProof`).
- **A schedule changed away and back during a run** is not noticed by the finish, and a run-now
  request during a run is absorbed by it (`ScheduledTasks.ReconciledTimeSurvivesFinishIff`,
  `ScheduledTasks.InvocationSurvivesFinishIff`).
- **Delivery leases are not fenced.** A stale executor's defer or reschedule makes a row claimable
  while another executor holds it (`WebhookDeliveries.StaleWriteEndsTheLease`): a pending row is due from
  the time set by the last claim or handing-back write, whoever made it
  (`WebhookDeliveries.NextClaimIff`). A late terminal
  write replaces the recorded outcome (`WebhookDeliveries.LastTerminalWriteDecides`).
- **A backfill can overwrite an edit that left nothing to stamp.** The service stamps anew on every
  destination edit, which both passes notice, but drops the stamp when nothing parses
  (app/services/url_service.py:1319-1358). After such an edit the first pass stamps the old
  destinations iff the url and geo rules are as they were (`DestBackfill.PrimaryStampIsStaleIff`,
  `DestBackfill.LastVariantRemoved`), and the second pass stamps the old url on a document that had no
  stamp (`DestBackfill.SecondaryStampIsStaleIff`).
- **Reading a body depends on its chunks** when the marker ends more than one byte past the cap
  (`BodyReader.ChunkingIsIrrelevantIff`).
- **Feed keys can collide** if a feed name contains a colon (`FeedSwap.FeedNamesWithColonsCollide`);
  no name in use does.

## Model

| member | source | states |
|---|---|---|
| DeletionProtocol.RestoreProofStandsIff | app/services/account_deletion_service.py:164-204 | in every reachable state of interleaved requests, restores, ticks, token expiry, sweep claims and deletions by address, an OAuth-only account in its grace period has the token of its latest flip stored, unused and expiring exactly at the purge deadline iff no deletion by address came after that token was stored, and exactly then its link really restores the account; it assumes links are presented only after their request flipped and that a raising flip did not apply |
| DeletionProtocol.RestoreProofSurvives | app/services/account_deletion_service.py:164-204 | so without deletions by address every such account has a token that restores it |
| DeletionProtocol.LinkRestoresIff | app/services/account_deletion_service.py:178-204 | a mailed link leaves the account ACTIVE without a deadline iff its token is stored, unused and unexpired and the account is pending or already so |
| DeletionProtocol.PasswordRequestRestores | app/services/account_deletion_service.py:105-109 | a password account's uninterrupted request marks it pending, supersedes every older token, and mails one whose link restores it |
| DeletionProtocol.NextKeepsInv | app/services/account_deletion_service.py:229-262 | every single step keeps the invariant behind that guarantee: hashes in different hands stay apart, no hash swept by address is stored again, unflipped requests own a live token, and the proof token is never discarded or consumed |
| DeletionProtocol.RunKeepsInv | app/services/account_deletion_service.py:229-262 | so does every run under the two assumptions |
| DeletionProtocol.EarlyLinkLosesTheProof | app/services/account_deletion_service.py:120-120 | a concrete run shows the first assumption is needed: a link used before its request flips burns the token the account then relies on |
| DeletionProtocol.AmbiguousFlipLosesTheProof | app/services/account_deletion_service.py:250-256 | a concrete run shows the second is needed: if the flip applies and still raises, the cleanup removes the only token |
| DeletionProtocol.StaleErasureLosesTheProof | app/repositories/token_repository.py:172-185 | a concrete run in which a deletion by address comes after: an erasure of an earlier account at the same address deletes the new account's only token by email |
| DeletionProtocol.RequestRun | app/services/account_deletion_service.py:229-262 | an uninterrupted token-first request is a run of protocol steps with exactly the stated effect on account and tokens |
| DeletionProtocol.AccountDeletionService.RequestOAuthOnlyDeletion | app/services/account_deletion_service.py:229-262 | mint, flip, clean up own token: success iff nothing failed and the account was ACTIVE; on failure the account is untouched and only its own token can be left; it refines the protocol steps |
| DeletionProtocol.AccountDeletionService.RestoreWithToken | app/services/account_deletion_service.py:164-204 | succeeds iff the token is alive and the account pending; the token is burned only after the flip, and a refusal changes nothing |
| AccountStore.MarkedAccountIsDueAfterGrace | app/repositories/user_repository.py:115-137 | only an ACTIVE account is marked; the sweep can claim it exactly from the end of its grace period, whatever the lease, and until then a restore gives back the account as it was and a second mark is refused |
| AccountStore.RestoreAndClaimExclude | app/repositories/user_repository.py:139-187 | a restored account is out of the sweep's reach; a claimed one can be neither restored nor marked, only it can be removed, and it can be claimed again exactly one lease later |
| ErasureProtocol.RunKeepsInv | app/services/account_erasure_service.py:171-265 | under any interleaving of runners, crashes, re-claims and late safety enforcement: claims spaced by the lease, finished cascade steps stay finished, mail bookkeeping consistent |
| ErasureProtocol.RemovalImpliesClaimForGood | app/services/account_erasure_service.py:185-265 | if anything that was there at some point of a run is gone later, or a runner has a step to take, the account is ERASING or gone and never ACTIVE again |
| ErasureProtocol.ErasureIsFinal | app/repositories/user_repository.py:166-187 | a claimed account stays claimed or goes, whatever is restored or requested later |
| ErasureProtocol.GoneMeansErased | app/services/account_erasure_service.py:185-265 | over every run that ends with the account gone: every satellite is empty; of the links at the first claim exactly those survive that were blocked at every delete reaching them, owner-wide or of their domain and by any runner; a survivor keeps its personal data iff it had some and was not blocked at any scrub reaching it, and ends unblocked iff it was unblocked for good after the last delete; and a link's pre-claim clicks survive iff no runner that had listed the link came to its chunk, which happens only to links that are gone |
| ErasureProtocol.RunMeetsLife | app/services/url_service.py:1604-1609 | over any run of any runners, each write of the cascade, of each domain and of each click chunk a step of its own with crashes in between, a link ends as the scrubs, deletes, blocks and unblocks it met in order make it |
| ErasureProtocol.ClicksSurviveIff | app/services/account_erasure_service.py:219-223 | over any claimed run of any runners, with crashes between chunks too, a link's pre-claim clicks are left iff no runner that had listed the link came to its chunk |
| ErasureProtocol.RetainedLinksHaveNoClicks | app/services/account_erasure_service.py:219-227 | over every run that ends with the account gone, no retained link has clicks left, pre-claim ones included, however many runners crashed on the way |
| ErasureProtocol.DomainLinksGetASecondPass | app/services/url_service.py:1604-1609 | whoever runs it, a custom domain's own scrub and delete come before its document goes: a link on it that enforcement leaves alone from then on has lost its personal data when blocked, and is gone otherwise |
| LinkFate.FateIff | app/repositories/url_repository.py:321-378 | over any sequence of scrubs, deletes, blocks and unblocks: surviving, staying blocked, and keeping personal data, each with its exact condition on when the link was blocked |
| LinkFate.SurvivorIsUnblockedIff | app/repositories/url_repository.py:566-596 | a survivor ends unblocked iff an unblock came after the last delete and no block after that |
| ErasureProtocol.ClaimsAreSpaced | app/repositories/user_repository.py:139-164 | any two successful erasure claims are at least a lease apart on the claimants' clocks |
| ErasureProtocol.AtMostOneConfirmationMail | app/services/account_erasure_service.py:253-261 | over a whole run at most one confirmation mail, and only after the account is gone |
| ErasureProtocol.ReclaimedRunErases | app/repositories/user_repository.py:22-39 | a cascade crashed anywhere, inside a domain too, becomes claimable when its lease ends, and there is a later uninterrupted run, which removes the account, sends the mail, and clears exactly the pre-claim clicks of links that still existed |
| ErasureProtocol.SoloFinishes | app/services/account_erasure_service.py:185-261 | whatever pages it lists, an uninterrupted cascade takes a bounded number of steps, always has a next one until it is through, and then the account is gone, the mail sent and exactly the named clicks are cleared |
| ErasureProtocol.NextKeepsCleanupInv | app/services/account_erasure_service.py:191-250 | no step of any runner undoes what a finished step removed |
| ErasureProtocol.PiiCanOutliveTheAccount | app/services/url_service.py:1648-1654 | from any fresh account, a run in which an unblocked link off the owner's custom domains is blocked between scrub and delete and outlives the account with its personal data |
| ErasureProtocol.PreClaimClicksCanOutliveTheAccount | app/services/account_erasure_service.py:185-215 | from any fresh account, a run in which a runner crashes after the link deletion and the retry, which cannot name the link, removes the account and leaves the link's pre-claim clicks |
| ErasureSweep.AccountErasureService.Erase | app/services/account_erasure_service.py:171-265 | skipped iff not due, and then nothing changes; erased removes the document; a raising cascade leaves the account ERASING and due exactly one lease later |
| ErasureSweep.AccountErasureService.Sweep | app/services/account_erasure_service.py:267-311 | each listed account meets exactly one fate, lost to a restore, to a rival runner's claim or to its removal, failed or erased; each counter is the number of accounts with that outcome and the four add up, nothing starts past the budget, unlisted accounts are untouched |
| ErasureSweep.LostToRivalIff | app/repositories/user_repository.py:139-187 | a due account is skipped iff it is gone, was pending and has been restored, or a rival's claim went through and its lease still runs by this runner's clock |
| ErasureSweep.TalliesAddUp | app/services/account_erasure_service.py:281-306 | every started account has exactly one of the three outcomes |
| HostBlocks.BlockKeepsExactIff | app/repositories/url_repository.py:837-896 | a host block keeps the simple rule for a link iff the link is not already blocked or routes to the host |
| HostBlocks.UnblockKeepsExact | app/repositories/url_repository.py:566-596 | an unblock always keeps the simple rule |
| HostBlocks.ExactThroughoutIff | app/repositories/url_repository.py:837-896 | over every run of blocks and unblocks the simple rule holds throughout iff no host foreign to the link is blocked while one of its own is |
| HostBlocks.NeverUnderBlocked | app/repositories/url_repository.py:837-896 | over every run, a link with a blocked host is BLOCKED and counts all its blocked hosts and only blocked ones |
| HostBlocks.LastUnblockReactivatesIff | app/repositories/url_repository.py:566-596 | unblocking a link's last blocked host brings it back iff it counts no other cause |
| HostBlocks.EndsBlockedIff | app/repositories/url_repository.py:837-896 | over all runs, a link that starts ACTIVE ends BLOCKED iff some call blocked one of its hosts and, at every later unblock of one of them, some host blocked since then still stood; with all its hosts unblocked that is exactly when it is stranded |
| HostBlocks.UnblockingEveryHostCanStrandALink | app/repositories/url_repository.py:857-866 | a concrete run in which every block is undone and the link stays BLOCKED |
| HostBlocks.FreshBlockThenUnblockRestoresStatusIff | app/repositories/url_repository.py:566-596 | blocking and unblocking a fresh host restores a link's status, unless it was blocked with no cause left and routes to that host |
| HostBlocks.PerLinkBlockIsNeverTouched | app/repositories/url_repository.py:696-723 | per-link blocks and manual bans are fixed points of every run of host blocks and unblocks |
| BlockRace.RaceEndsBlockedIff | app/services/bulk_url_service.py:350-366 | over every interleaving of host blocks, unblocks, and the loads and writes of bulk status changes, a link that starts ACTIVE ends BLOCKED iff the last write that reached it, if any, made it ACTIVE and the calls after that write hold it blocked |
| BlockRace.DecidedAtTheLoadIff | app/services/bulk_url_service.py:350-366 | until its next load or write a bulk change is to write a link iff the link was not blocked and had another status when loaded, whatever has happened to it since |
| BlockRace.DeactivationLosesTheBlock | app/repositories/url_repository.py:437-439 | a deactivation written over a block leaves the link INACTIVE, and the next activation puts it back in service with its host blocked |
| HostBlocks.ConcurrentBlocksAgreeOnStatus | app/repositories/url_repository.py:837-896 | complete host blocks interleaved visit by visit, with redelivery, leave a link with the same status whatever the order |
| HostBlocks.OrderFreeLinksSettle | app/repositories/url_repository.py:857-895 | links that route to all blocked hosts, to none, or were already blocked also end with the same cause set |
| HostBlocks.OrderShowsOnOtherLinks | app/repositories/url_repository.py:857-895 | on every other link two complete interleavings leave different cause sets |
| HostBlocks.EachDocMeetsItsOwnVisits | app/repositories/url_repository.py:837-896 | interleaving over the collection is interleaving per document |
| HostBlocks.ConcurrentBlocksConverge | app/repositories/url_repository.py:837-896 | two interleavings over the whole collection agree on every status and, on order-free links, on everything |
| HostBlocks.AliasChunks | app/repositories/url_repository.py:84-88 | chunks are non-empty, at most 1000 long, and cover exactly the pairs |
| HostBlocks.UrlCollection.BlockActiveByDestHost | app/repositories/url_repository.py:837-896 | both sweeps in place, and the answer is the number of links whose status changed |
| HostBlocks.UrlCollection.UnblockByDestHost | app/repositories/url_repository.py:566-596 | both sweeps in place, and the answer is the number of links whose status changed |
| HostBlocks.UrlCollection.BlockActiveByAliases | app/repositories/url_repository.py:696-723 | a named link that was ACTIVE is blocked with its reason, keeps its alias, domain and hosts, and no run of host blocks and unblocks ever changes it again; every other link is as it was, and the answer is the number of links blocked |
| HostBlocks.AliasBlockStands | app/repositories/url_repository.py:710-719 | the same of one link |
| SingleUrls.SingleLoopIsPointwise | app/services/url_service.py:1270-1360 | calling the single-item endpoint for each link in turn treats every link as if it were called for alone |
| SingleUrls.UpdateRefusesIff | app/services/url_service.py:1296-1317 | an update is refused exactly for too many tags, a blocked link, an expiry that is past or, where it changes, not after the start, and tags that are not the owner's, each with its code |
| SingleUrls.UpdateWrites | app/services/url_service.py:1306-1360 | an accepted update stores the fields sent and the tags once each, reactivates an EXPIRED link whose expiry changes unless a new status was sent, and moves the stamp iff something changed |
| SingleUrls.BulkMatchesSingleIff | app/services/bulk_url_service.py:271-454 | the set-based result and verdicts are those of the single-item calls, modelled from the update handlers, iff no requested link is foreign, no changed expiry precedes its start, every tag a retagged link keeps is still the owner's, and no blocked link is also over the tag cap |
| BulkUrls.QuietBulkIsTheSingleLoopIff | app/services/bulk_url_service.py:271-684 | the same for what a bulk operation without failing writes leaves and reports |
| SingleUrls.UpdateIsTheRuleIff | app/services/url_service.py:1306-1360 | one update, with its handlers, start check and auto-reactivation, against the bulk rule |
| SingleUrls.ExpiryAtStartPartsThePaths | app/services/url_service.py:356-366 | an expiry at a link's start: bulk accepts, single refuses |
| SingleUrls.DeletedTagPartsThePaths | app/services/url_service.py:1660-1677 | a link that still carries a deleted tag: adding another in bulk succeeds, sending the list back is refused |
| BulkRule.WritesKeepTagsWell | app/services/bulk_url_service.py:611-664 | no bulk write gives a link a repeated tag or more than the cap |
| BulkUrls.RowsTellTheTruth | app/services/bulk_url_service.py:313-341 | an accepted row means the rule was applied, a refused one that the document is untouched, except `internal` updates and `not_attempted` deletes |
| BulkUrls.BlindDeleteAgreesIff | app/services/bulk_url_service.py:322-336 | on the one excluded path the cache still agrees iff none of the owner's requested unblocked links that went was cached under its key |
| BulkUrls.BulkBatch.MakeReport | app/services/bulk_url_service.py:95-123 | errs iff an id lacks a verdict; otherwise one row per id in order, succeeded the number of rows that are done and failed the number that are refused |
| BulkUrls.BulkUrlService.Load | app/services/bulk_url_service.py:159-184 | dedupe in first-seen order, owned fetch, base verdicts for exactly the missing, foreign and blocked ids |
| BulkUrls.BulkUrlService.Invalidate | app/services/bulk_url_service.py:186-192 | grouping by domain drops exactly the given keys |
| BulkUrls.BulkUrlService.BulkDelete | app/services/bulk_url_service.py:271-341 | database, one verdict per unique id under any failing delete, cache agreement on every path but a failed delete whose re-query fails |
| BulkUrls.BulkUrlService.BulkSetStatus | app/services/bulk_url_service.py:343-378 | the same for status, partially applied failing updates included |
| BulkUrls.BulkUrlService.BulkSetExpiry | app/services/bulk_url_service.py:380-454 | the same for the two writes of an expiry change; a past expiry changes nothing |
| BulkUrls.BulkUrlService.BulkTag | app/services/bulk_url_service.py:589-684 | the same for tags, with the cache untouched and still agreeing |
| BulkUrls.BulkUrlService.ApplyUpdate | app/services/bulk_url_service.py:688-720 | one set-based update with verdicts either way and its keys dropped when it fails |
| LinkStore.DroppingTouchedKeysKeepsAgreement | app/services/bulk_url_service.py:186-192 | dropping the keys of every document a write may have touched keeps cache and database in agreement |
| LinkStore.Dedupe | app/services/bulk_url_service.py:169-174 | first occurrences in order, without repetition |
| BulkMove.FirstEligibleWins | app/services/bulk_url_service.py:456-579 | without failures an item moves iff its alias is allowed and was free on the target before the batch and no earlier eligible item has it; everything else stays, and the rows say so |
| BulkMove.EligibleIff | app/services/bulk_url_service.py:486-515 | what makes an item eligible, written out: the owner's, unblocked, elsewhere, its alias held by nothing on the target and neither reserved nor legacy on the system default |
| BulkMove.RefusalsStand | app/services/bulk_url_service.py:504-550 | whatever happens around the writes, a conflict is for an alias still held on the target when the loop ends, and an unknown outcome takes a failing write |
| BulkMove.MoveOneKeepsKeysUnique | app/services/bulk_url_service.py:513-530 | the unique (domain, alias) key survives each move, inserts by others and failing writes included |
| BulkMove.MovesKeepKeysUnique | app/services/bulk_url_service.py:456-579 | and every sequence of moves |
| BulkMove.TakenStaysTaken | app/services/bulk_url_service.py:503-512 | a key held on the target is held for good, so the alias memory of the loop never decides anything the availability check would not |
| BulkMove.EveryMoveIsByRight | app/services/bulk_url_service.py:470-560 | whatever happens around the writes, a link stays as it is or is the owner's, unblocked, and changes nothing but its domain and stamp; none lands on the system default under a reserved or legacy alias; and each row's code is decided by the link alone |
| BulkMove.SkippingRefusedItems | app/services/bulk_url_service.py:483-489 | fetching up front and looping over the actionable items equals calling the single-item endpoint for every id |
| BulkUrls.BulkUrlService.BulkMoveDomain | app/services/bulk_url_service.py:456-579 | database and rows of the single-item calls in request order; every link moves by right or stays, every row is right about its link, unique keys and cache agreement are kept, both keys are dropped for every moved or unknown item |
| BulkUrls.BulkUrlService.MoveItem | app/services/bulk_url_service.py:486-550 | one item: check, write arbitrated by the unique index, verdict, and both keys dropped when its outcome is unknown |
| ScheduledTasks.ClaimsAreALeaseApart | app/repositories/scheduled_task_repository.py:76-109 | two claims of one task with no accepted finish in between are a lease apart on the claimants' clocks |
| ScheduledTasks.TokenHeldIff | app/repositories/scheduled_task_repository.py:100-105 | with fresh tokens a claim's token is on its task exactly until the next claim or accepted finish |
| ScheduledTasks.FinishAcceptedIff | app/repositories/scheduled_task_repository.py:111-147 | a finish is accepted iff nobody has claimed or finished its task since its claim; a superseded one changes nothing |
| ScheduledTasks.AcceptedFinishFreesTheTask | app/repositories/scheduled_task_repository.py:122-143 | over all runs, an accepted finish records its outcome, keeps the task enabled and scheduled as it was, and makes it claimable from its next occurrence on, whatever lease the claim took; no other task changes |
| ScheduledTasks.FinishedTaskWaitsForItsOccurrence | app/repositories/scheduled_task_repository.py:92-109 | from then until the next claim or accepted finish the outcome stays and the task is claimable iff it is enabled and its next occurrence has come, whatever happens in between |
| ScheduledTasks.ScheduledTaskRepository.FinishRun | app/repositories/scheduled_task_repository.py:111-147 | accepted iff the stored token is the fence; what is then stored is stated field by field, and a superseded finish changes nothing |
| ScheduledTasks.OneFinishPerClaim | app/repositories/scheduled_task_repository.py:111-147 | at most one finish of a claim is ever accepted |
| ScheduledTasks.ReconciledTimeSurvivesFinishIff | app/repositories/scheduled_task_repository.py:119-136 | a mid-run schedule change keeps its own next occurrence iff the new schedule is not the finisher's or both arm the same time |
| ScheduledTasks.InvocationSurvivesFinishIff | app/repositories/scheduled_task_repository.py:149-157 | a run-now request during a run survives its finish iff the schedule changed or both arm the same time |
| ScheduledTasks.CrashedRunIsReclaimable | app/repositories/scheduled_task_repository.py:82-84 | a task whose runner crashed can be claimed again once its lease has passed |
| ScheduledTasks.DueTaskIsClaimed | app/repositories/scheduled_task_repository.py:76-109 | claims at one instant each take one due task out, so a due task is claimed within as many claims as there are due tasks |
| ScheduledTasks.ClaimTakesOneDueTask | app/repositories/scheduled_task_repository.py:90-109 | a claim removes exactly the picked task from the due ones, and picks nothing only if nothing is due |
| ScheduledTasks.ScheduledTaskRepository.ClaimDue | app/repositories/scheduled_task_repository.py:76-109 | leases the due task that has waited longest, or none iff none is due |
| ScheduledTasks.SyncKeepsRuntimeState | app/repositories/scheduled_task_repository.py:28-74 | a boot brings the schedule up to the registered one, re-arms only a new or rescheduled task, keeps pause, lease and last run, and a later or concurrent boot changes nothing |
| ScheduledTasks.SyncDoesNotFenceTheRun | app/repositories/scheduled_task_repository.py:59-74 | a boot during a run takes neither its lease nor its right to finish |
| WebhookDeliveries.StepKeepsBalance | app/repositories/webhook_endpoint_repository.py:131-146 | every step keeps the counter equal to pending non-test rows plus slots in flight and within the cap, and no release finds it at zero |
| WebhookDeliveries.CounterIsExact | app/repositories/webhook_endpoint_repository.py:131-146 | so the counter is exact in every reachable state |
| WebhookDeliveries.RecountUndercountsBySlotsInFlight | app/services/webhooks/dispatcher.py:103-133 | a recount is below the counter by exactly the reservations and releases in flight |
| WebhookDeliveries.OneTerminalWriteAnswersTrue | app/repositories/webhook_delivery_repository.py:131-149 | over any sequence of writes by live, stale and manual executors a row leaves PENDING at its first terminal write, and exactly that one answers true |
| WebhookDeliveries.HistoryOnlyGrows | app/repositories/webhook_delivery_repository.py:112-149 | attempts are only appended, a rendered body never changes once set, a finished row stays finished |
| WebhookDeliveries.AttemptCountIsExact | app/repositories/webhook_delivery_repository.py:119-129 | attempt_count always equals the number of attempts |
| WebhookDeliveries.FinishedRowIsNeverClaimed | app/repositories/webhook_delivery_repository.py:81-110 | a finished row is never claimed again |
| WebhookDeliveries.LastTerminalWriteDecides | app/repositories/webhook_delivery_repository.py:187-196 | the recorded outcome is that of the last terminal write |
| WebhookDeliveries.ClaimsAreALeaseApart | app/repositories/webhook_delivery_repository.py:81-110 | two claims of a row are a lease apart unless somebody handed it back in between |
| WebhookDeliveries.StaleWriteEndsTheLease | app/repositories/webhook_delivery_repository.py:151-163 | an unfenced defer or reschedule makes a held row claimable from the time it sets |
| WebhookDeliveries.NextClaimIff | app/repositories/webhook_delivery_repository.py:81-163 | in every reachable state a pending row is due from exactly the moment set by the last claim, reschedule, defer or insert of it, whichever executor wrote that |
| WebhookDeliveries.AttemptKeepsHistory | app/services/webhooks/executor.py:189-325 | an attempt on a row seen at any earlier time appends one attempt unless the row is put on hold, leaves it pending iff it was and the verdict is not final, and due from when the verdict says; on a row nobody has written since it stays on the retry ladder |
| WebhookDeliveries.WebhookStore.MakeAttempt | app/services/webhooks/executor.py:189-362 | the row ends with success iff the endpoint is reachable, body and secret are at hand and the answer is a 2xx code; it is put on hold, retried at its rung or failed by what the attempt met, each with its due time; other rows are untouched and the counter keeps its distance to the recount |
| WebhookDeliveries.AttemptIsAnswered | app/services/webhooks/executor.py:196-325 | the same of one row, whatever others have written to it since the executor saw it |
| WebhookDeliveries.LadderIsExact | app/services/webhooks/executor.py:50-57 | over every run of attempts that meet only retryable failures and waits, a new delivery stays pending, due at exactly its rung's delay, until its seventh failure ends it; waits burn no rung |
| WebhookDeliveries.WebhookStore.ReservePending | app/repositories/webhook_endpoint_repository.py:131-140 | takes a slot iff the counter is below the cap |
| WebhookDeliveries.WebhookStore.ClaimDue | app/repositories/webhook_delivery_repository.py:81-110 | leases the due row that has waited longest, or none when none is due |
| WebhookDeliveries.WebhookStore.RecordAttemptAndFinish | app/repositories/webhook_delivery_repository.py:131-149 | the terminal write, true iff it took the row out of PENDING |
| WebhookDeliveries.WebhookStore.FinishDelivery | app/services/webhooks/executor.py:329-362 | releases exactly when the write answered true for a non-test row, so the counter keeps its distance to the recount |
| StatsQuery.MatchBuilder.ApplyDimensionFilters | app/services/stats_service.py:284-334 | filling the query in place, in any order of the filters, adds exactly the requirement that every non-empty filter passes; a link filter on a locked query is ignored |
| StatsQuery.MatchBuilder.MergeOrGroups | app/services/stats_service.py:336-345 | folding the groups keeps the meaning |
| StatsQuery.BuildClickQuery | app/services/stats_service.py:203-244 | a click matches iff it is in scope by owner stamp or claimed link, in the window, and passes every non-empty filter, null sentinels included |
| StatsQuery.BuildLinkQuery | app/services/stats_service.py:737-743 | a click matches the per-link query iff it is that link's, in the window, and passes the other filters |
| StatsQuery.BuildAccountQuery | app/services/stats_service.py:246-282 | tags resolved and query built: scope, window, filters and exactly the resolved links |
| StatsQuery.ResolveTagFilter | app/services/stats_service.py:246-282 | tag filters become the canonical ids of the owner's tagged links cut down by the explicit ones, or the id nobody has |
| StatsQuery.TagFilterIsTheIntersectionIff | app/services/stats_service.py:278-281 | that filter is the intended intersection iff every tagged link named explicitly is also named in canonical spelling |
| StatsQuery.OtherSpellingMissesTheLink | app/services/stats_service.py:278-281 | another spelling of a tagged link resolves to nothing |
| StatsQuery.FilterSelectsItsBucketIff | app/shared/aggregation_strategies.py:99-103 | filtering by a bucket's label selects the clicks shown in it, except nulls of dimensions without a sentinel, and adds empty strings to the sentinel |
| StatsQuery.VariantFilterSelectsItsBucketIff | app/services/stats_service.py:92-96 | filtering variants by a label selects exactly the clicks grouped under it, the default one included; digits with leading zeros, which no label has, select the bucket of their number |
| StatsQuery.VariantFilterSelects | app/services/stats_service.py:92-96 | filtering by the decimal spelling of n selects exactly the clicks whose stored variant index is the number n |
| StatsQuery.ShowIntOf | app/services/stats_service.py:94-95 | reading digits and spelling numbers are inverse on spellings without leading zeros |
| StatsQuery.OneValueMeans | app/services/stats_service.py:77-96 | what one filter value asks of a click, dimension by dimension, with the fields and the sentinel labels written out |
| StatsQuery.FilterIsTheUnion | app/services/stats_service.py:284-337 | a filter of several values selects the union of what each selects |
| StatsQuery.InTagScopeIff | app/services/stats_service.py:259-277 | a link is in the scope of tag filters iff it is the owner's and carries a tag given by id or by a registered name |
| StatsQuery.SentinelGroupMeans | app/services/stats_service.py:316-331 | a sentinel group is the null-or-listed requirement |
| BodyReader.ReadBody | app/infrastructure/safe_fetch.py:122-142 | the incremental search equals searching everything after each chunk, and returns the shortest prefix ending in the marker, the whole body, the first max_bytes, or an error |
| BodyReader.ResumedSearchFindsTheFirst | app/infrastructure/safe_fetch.py:132-136 | resuming one marker width back misses nothing |
| BodyReader.EndIsTheMarkers | app/infrastructure/safe_fetch.py:132-137 | the prefix that is returned ends in the marker |
| BodyReader.MarkerIsFound | app/infrastructure/safe_fetch.py:132-136 | wherever the marker stands in a body, one is found that ends there or earlier |
| BodyReader.ReadIsAllowed | app/infrastructure/safe_fetch.py:122-142 | every outcome is one of the documented ones for the whole body |
| BodyReader.ChunkingIsIrrelevantIff | app/infrastructure/safe_fetch.py:122-142 | the outcome is the same for every chunking iff no marker is given, it never occurs, or it ends at most one byte past the cap |
| BodyReader.LateMarkerDependsOnChunks | app/infrastructure/safe_fetch.py:137-141 | for every later marker, two chunkings with different outcomes |
| BodyReader.ReadIsCanonical | app/infrastructure/safe_fetch.py:122-142 | what every chunking returns when chunking cannot matter |
| DomainDrain.CustomDomainService.DeleteAllForOwner | app/services/custom_domain_service.py:393-464 | terminates; every deleted domain, there from the start or inserted meanwhile, was acknowledged as evicted and other owners' stay; with smooth answers and nobody inserting it removes all N and returns N within N/50+2 passes; exhaustion takes inserts and all the passes, and every other failure is explained by a domain: an upstream call raised, its eviction was not acknowledged, or its delete found nothing |
| DomainDrain.CustomDomainService.ErasePage | app/services/custom_domain_service.py:425-455 | all of the page or a failure, never a document without its acknowledgement |
| DomainDrain.CustomDomainService.ListByOwner | app/repositories/custom_domain_repository.py:67-91 | a page of distinct owned domains, full unless it is all of them |
| DomainDrain.PageLeaves | app/services/custom_domain_service.py:412-456 | a page erased leaves that many fewer |
| FeedSwap.FeedDomainRepository.ReplaceFeed | app/repositories/feed_domain_repository.py:33-76 | the stored set is the swap of the old one; kept is the number of usable entries and purged the number of documents gone; the new domains are exactly those not present; an empty list changes nothing; the stores on the way are at most a batch of upserts apart and none has a gap |
| FeedSwap.SwapIsExactIff | app/repositories/feed_domain_repository.py:69-75 | the feed ends with exactly the new set iff the clock is newer than every stale document's |
| FeedSwap.NoGap | app/repositories/feed_domain_repository.py:49-75 | at no instant of the upserts or the purge is a domain of both sets missing |
| FeedSwap.OtherFeedsUntouchedIff | app/repositories/feed_domain_repository.py:56-60 | other feeds are untouched iff none of their documents sits at a written key |
| FeedSwap.ColonFreeFeedsNeverCollide | app/repositories/feed_domain_repository.py:29-31 | feed names without a colon keep their keys apart |
| FeedSwap.FeedNamesWithColonsCollide | app/repositories/feed_domain_repository.py:29-31 | names with a colon can share a key |
| DestBackfill.LinkCollection.Backfill | scripts/backfill_url_dest.py:239-307 | each matching document is attempted exactly once in id order although successes shrink the filter; every document has its one outcome; failed and skipped are exact |
| DestBackfill.PrimaryLeavesTheFailed | scripts/backfill_url_dest.py:239-307 | without other writers exactly the failed documents still match, and a rerun with none failed is a no-op |
| DestBackfill.SecondaryLeavesFailedAndHostless | scripts/backfill_url_dest.py:178-236 | the second pass leaves exactly the failed documents and stamps without a host, if there are any |
| DestBackfill.SecondaryFieldsAreExact | scripts/backfill_url_dest.py:129-149 | the secondary lists are strictly sorted, omit the main host, are index-aligned, and hold exactly the hosts the urls parse to, each from its first url |
| DestBackfill.StampListsEveryHost | scripts/backfill_url_dest.py:116-163 | a document's stamp names its url's host and lists exactly the other hosts that some country, variant, pre-start or expired destination parses to; there is none iff nothing parses |
| DestBackfill.SecondPassListsEveryHost | scripts/backfill_url_dest.py:166-192 | what the second pass adds to a stamp lists exactly those hosts of the document as written over, besides the stamped one |
| DestBackfill.SortSorts | scripts/backfill_url_dest.py:129-136 | sorting by host is strict and keeps the members |
| DestBackfill.PrimaryStampIsStaleIff | scripts/backfill_url_dest.py:275-286 | with the service re-stamping on every destination edit, a stamp that does not fit lands iff the edit kept url and geo rules and took away the last destination that parses |
| DestBackfill.LastVariantRemoved | app/services/url_service.py:1319-1358 | such an edit: a link whose url does not parse loses its one variant |
| DestBackfill.SecondaryStampFitsIff | scripts/backfill_url_dest.py:166-192 | the lists the second pass writes always fit the document as written over; the main part fits iff it did, where there was a stamp, and iff the url still parses to the same, where there was none |
| DestBackfill.SecondaryStampIsStaleIff | scripts/backfill_url_dest.py:166-192 | with only the service editing, what the second pass leaves is wrong iff the stamp it found was already wrong and unedited, or a stampless document whose url parsed lost every destination that parses |
| DestBackfill.StampsKeepTheirHosts | scripts/backfill_url_dest.py:152-175 | no writer stores a stamp without a host |
| DestBackfill.SecondaryLeavesTheFailed | scripts/backfill_url_dest.py:178-236 | so on documents these writers wrote the second pass leaves exactly the failed ones, and a rerun with none failed is a no-op |
| DestBackfill.PageReached | scripts/backfill_url_dest.py:257-297 | one page moves the frontier and leaves nothing behind it |
| ReportTriage.Triage | app/services/report_intake_service.py:279-319 | every item is in exactly the list it belongs in: refused as invalid iff it names no target, as a duplicate iff an earlier item names the same, as not found iff its target does not exist, accepted with the target's destinations otherwise |
| ReportTriage.TriagePartitions | app/services/report_intake_service.py:294-319 | each index ends in exactly one list, rejections carry their index and reason in order, accepted targets are distinct and first to be named |
| ReportTriage.TriageDecidesEach | app/services/report_intake_service.py:294-319 | the same of the lists as defined item by item |
| ReportTriage.MergeEvents | app/services/report_intake_service.py:347-396 | exactly one event per parsed host, whose reasons, codes and destinations are the unions over the reports reaching it |
| ReportTriage.MergeIsUnion | app/services/report_intake_service.py:365-384 | merging a report into an event adds exactly its reason, code and destinations |
| ReportTriage.NewEventIsUnion | app/services/report_intake_service.py:385-394 | a new event is the union of its one report |

## Left out

- Routes, middleware, request validation, templates, settings and wiring: shallow branching.
- Mail, Discord, PostHog, Redis, Cloudflare, R2 and DNS: foreign I/O, modelled as success or failure where a core calls it.
- Edge entries, domain events and log lines of the bulk operations: detached and best effort.
- URL parsing, host names, regular expressions, password hashing and token generation: parameters, with fresh tokens assumed distinct.
- DeletionProtocol.RestoreProofSurvives: one account at a time and OAuth-only accounts; a password account's request flips first and its link is best effort.
- ErasureProtocol.GoneMeansErased: a scrub, a delete or the listing of the links reaches all of them in one step; the cap on listing passes, which a claimed account never reaches, and the order of a page are in `DomainDrain`; a domain without links is passed through the same two writes, which do nothing there; PostHog and R2 prefix paging are single wipes; no rows are written for an account after its claim.
- HostBlocks.UrlCollection.BlockActiveByDestHost: stored cause lists are sets, so order and duplicates inside `blocked_hosts` are not modelled; audit stamps are one flag.
- SingleUrls.BulkMatchesSingleIff: stored tag lists are taken to have no repeated tag and at most the cap, as every writer keeps them; the other fields of an update are not modelled.
- BulkUrls.BulkUrlService.BulkSetExpiry: timestamps are comparable numbers; comparing aware with naive datetimes is not modelled.
- BulkUrls.BulkUrlService.BulkMoveDomain: the single-item move it is compared with answers a foreign link as missing, as the batch does; other writers insert links between check and write but do not edit or delete the caller's.
- ScheduledTasks.FinishAcceptedIff: `updated_at` stamps are not modelled, so a finish always counts as a modification.
- WebhookDeliveries.CounterIsExact: the repair of the counter by a recount, row expiry and endpoint deletion are left out; `mark_failed` is a terminal write with an error attempt.
- Endpoint health counters, auto-disable, rendering and signing in the webhook executor: counters and parameters.
- WebhookDeliveries.WebhookStore.MakeAttempt: an event that cannot be rendered, whatever the reason, is one failure; the stored row exists, as row expiry is left out.
- BlockRace.RaceEndsBlockedIff: bulk status changes only; reactivation through a bulk expiry change has the same filter.
- StatsQuery.ResolveTagFilter: the resolved ids are a list in no particular order; digits are ASCII; rejection of malformed ids happens before it.
- DomainDrain.CustomDomainService.ListByOwner: the newest-first order of a page is left open, so the results hold for any order.
- FeedSwap.FeedDomainRepository.ReplaceFeed: canonical spelling is a parameter.
- DestBackfill.PrimaryStampIsStaleIff: the scheme and subdomain of a stamp are not modelled; other processes edit destinations only through the service.
- DestBackfill.LinkCollection.Backfill: dry runs, progress output and the sweep over several collections.
- ReportTriage.MergeEvents: the sorted reason list of an event is a set; storage of reports and the summary notification.
- Click-limit expiry, rate limits, tag management, OAuth login and verdict storage: single-branch updates.
