# Verified models of the monorepo's state machines

Dafny models of the parts of this operations monorepo that hold real protocols, with machine-checked
proofs. `dafny verify dfyconfig.toml` checks everything. Each module stands for one component:

| modules | component |
|---|---|
| `HousekeeperCapacity`, `HousekeeperPoll`, `HousekeeperTheorems`, `HousekeeperProgress`, `HousekeeperCrash`, `HousekeeperCommitment`, `HousekeeperUsage`, `HousekeeperRuns`, `HousekeeperEngine`, `Sums` | the qBittorrent housekeeper: disk accounting, one poll as a function, what every poll keeps, whom it must serve, polls cut off at any API call, the committed and the used bytes call by call, whole runs of polls, and the engine's loops |
| `ChatDecisions`, `ChatProtocol`, `ChatWorld`, `ChatAnalyzer` | the chat analyzer: validating and merging model decisions, the claim / submit / finalize / reconcile protocol as a state machine, what a batch must come to for all answers from outside, and the processing pass over its store |
| `Collector`, `Scheduler`, `Levenshtein` | the chat analyzer's forward collector, its daily-window scheduler and its bounded edit distance |
| `HostMirror` | the three-way host mirror with pull and push |
| `Outbox` | the report outbox with its one-slot wake channel |
| `RateLimiter`, `Batching`, `TextSearch`, `HtmlPatch`, `RollbackRecord`, `Deploy` | the login rate limiter, history batching, the Netdata HTML patcher over a module of text searching, and the Tiny VLESS deployment with its rollback record |

Conventions. The network, the file system, databases and clocks are steps that may fail, before or after their
effect; how each of them ends is given from outside, so that contracts say exactly when an operation succeeds and what
it then must have done. A crash is a prefix of the calls or of the recorded run. Where the original mutates in place, a class
or a loop does too and is proved against a function, a relation or the state machine; the theorems are then
about those. What a class calls `Valid()` holds between all its methods, which include what the
environment may do, so its guarantees are about every run. Hashes and random identifiers never collide, file contents are compared by value or by hash.
Instants are integers. Hosts, paths, torrent hashes and message identifiers are integers or strings with
the original's order.

Findings, each with the exact condition in the table below:

- Merging a second model decision into a valid first one is valid exactly when the second, restricted to the
  rechecked messages, claims no message twice (`ChatDecisions.MergeValidity`, example `ChatDecisions.MergeCanBeInvalid`).
- The HTML patcher's own check rejects a page it just patched when the page already mentioned one of the two
  data attributes, and only then (`HtmlPatch.CheckAcceptsApplied`, example `HtmlPatch.CheckCanReject`).
- Removing the patch restores the file as it was exactly when the file had no carriage return, because reading
  turns line ends into line feeds (`HtmlPatch.RemoveRestoresFile`, example `HtmlPatch.ReturnIsNotRestored`).
- A deployment that fails in staging reports an ordinary failure whatever its own undo does. The files are then as
  before exactly when the undo gets through, or stops at a path that is back as it was while every path before it
  already held what was wanted (`Deploy.StagingFailureExact`, example `Deploy.StagingCanTear`); `Deploy.Host.DeployFiles`
  carries this into an equivalence for every ordinary failure.
- A poll of the housekeeper does not always keep the committed bytes within the cap: it takes the rejected tag off a small
  enough torrent inside the root that is also admitted, and so commits to it, without asking whether it fits; it
  leaves that torrent stopped, so the commitment is exceeded and not the disk
  (`HousekeeperCommitment.MixedTagsOvercommit`). A poll keeps the committed bytes exactly when every such torrent fits by
  then (`HousekeeperCommitment.PollCapacityExact`). Both tags on one torrent can be of the engine's own making, when a poll is
  cut off while it rejects the torrent and the torrent then moves (`HousekeeperRuns.EngineMadeOvercommit`).
- Once the used bytes and the room of the running torrents are within the cap, every run keeps them there, whatever
  the tags, but for what comes in, while a poll runs, for torrents that this poll rejects (`HousekeeperRuns.RunsStayWithin`); that much more can come in
  (`HousekeeperRuns.StrayedOverfills`).
- An outbox write that stores its item and still reports an error sends no signal. A dispatcher asleep without a
  deadline is woken exactly when some write succeeds (`Outbox.DumpDispatcher.StoreWhileAsleep`), so such an item can
  wait for ever (`Outbox.DumpDispatcher.LateFailureStrands`); only such items can.
- The five-minute limit of the outbox backoff is never reached: the longest wait is 256 seconds (`Outbox.BackoffDoubles`).
- The rate limiter allows every call made at the zero instant. Any interval of one window allows at most one call
  less than twice the limit plus the calls at the zero instant in it (`RateLimiter.AtMostTwiceTheLimit`), and no less
  (`RateLimiter.BoundIsAttained`, and away from the zero instant `RateLimiter.BoundIsAttainedLater`).
- Defaulted schedule settings can still have equal opening and closing minutes (20:00); such a window lasts a whole
  day (`Scheduler.Settings.WithDefaults`).

## Model

| member | source | states |
|---|---|---|
| Sums.SaturatingSumOrderIndependent | workloads/qbittorrent-housekeeper/internal/housekeeper/engine.go:653-662 | the saturating int64 total of a list of byte counts does not depend on the list's order |
| HousekeeperCapacity.CommittedClosedForm | workloads/qbittorrent-housekeeper/internal/housekeeper/engine.go:422-457 | clipping at zero twice loses nothing: the committed bytes depend only on usage minus all tracked bytes |
| HousekeeperCapacity.FitsMonotoneInEvictions | workloads/qbittorrent-housekeeper/internal/housekeeper/engine.go:422-457 | evicting a larger set of torrents never makes a fitting candidate stop fitting |
| HousekeeperCapacity.PredictionMatchesNextPoll | workloads/qbittorrent-housekeeper/internal/housekeeper/engine.go:418-457 | the verdict predicted for a candidate after evictions is the plain verdict on the surviving list at the predicted usage |
| HousekeeperCapacity.CapacitySafety | workloads/qbittorrent-housekeeper/internal/housekeeper/engine.go:422-492 | once the commitment is at most the cap, no run of downloads inside held torrents, reservations, rejections and evictions takes usage above the cap |
| HousekeeperCapacity.StaleSnapshotStaysExact | workloads/qbittorrent-housekeeper/internal/housekeeper/engine.go:163-174 | a download of another held torrent after the list and usage were read changes no candidate's committed bytes |
| HousekeeperEngine.FitsAfterPressureEvictions | workloads/qbittorrent-housekeeper/internal/housekeeper/engine.go:418-457 | the saturating check with its early guards decides exactly whether committed bytes in unbounded arithmetic are at most the cap |
| HousekeeperEngine.TakeSnapshot | workloads/qbittorrent-housekeeper/internal/housekeeper/engine.go:459-498 | every torrent is in one of four classes, each count is that of its class, kept ones are counted beside, and reserved and committed bytes are the exact figures, saturated |
| HousekeeperTheorems.PollSynced | workloads/qbittorrent-housekeeper/internal/housekeeper/engine.go:106-207 | after an error-free poll the engine's own copy of tags and run states is what its API calls made of the listed torrents |
| HousekeeperTheorems.NormalIsFixed | workloads/qbittorrent-housekeeper/internal/housekeeper/engine.go:267-355 | the torrents a normalization pass makes no call about are exactly the normal ones |
| HousekeeperTheorems.NormalizationFixedPoint | workloads/qbittorrent-housekeeper/internal/housekeeper/engine.go:267-355 | a second pass makes no API call, and every off-root or oversized torrent ends stopped, rejected and neither waiting nor admitted |
| HousekeeperTheorems.CandidatesAreStopped | workloads/qbittorrent-housekeeper/internal/housekeeper/engine.go:157-166 | every admission candidate of a prepared poll is stopped and inside the root, so the skip in the loop never fires |
| HousekeeperTheorems.AdmissionIsPrefix | workloads/qbittorrent-housekeeper/internal/housekeeper/engine.go:163-189 | what is admitted is a prefix of the oldest-first order and nothing else changes |
| HousekeeperTheorems.PollRespectsCap | workloads/qbittorrent-housekeeper/internal/housekeeper/engine.go:157-196 | a poll that admits ends with committed bytes at most the cap, also as the snapshot saturates them |
| HousekeeperCommitment.PollIsGuarded | workloads/qbittorrent-housekeeper/internal/housekeeper/engine.go:106-207 | every call of a poll that starts a torrent starts a stopped, held one that fits by then, and only a stopped torrent comes to be held; where no torrent is admitted and rejected at once, every other call but the reservation of one that fits adds nothing to what is held |
| HousekeeperCommitment.PollKeepsCapacity | workloads/qbittorrent-housekeeper/internal/housekeeper/engine.go:106-207 | where no acceptable torrent is admitted and rejected at once, a poll cut off after any call leaves the committed bytes at most the cap if they were before |
| HousekeeperCommitment.PollCapacityExact | workloads/qbittorrent-housekeeper/internal/housekeeper/engine.go:106-207 | for all listed torrents with committed bytes within the cap: they stay so after every call if and only if the poll deletes for retention or every admitted torrent that it un-rejects fits when it does |
| HousekeeperCommitment.MixedTagsOvercommit | workloads/qbittorrent-housekeeper/internal/housekeeper/engine.go:317-327 | a torrent with both tags is un-rejected and held without a check, which takes the committed bytes over the cap, and ends stopped |
| HousekeeperUsage.PollKeepsExposure | workloads/qbittorrent-housekeeper/internal/housekeeper/engine.go:106-207 | whatever the tags, a poll cut off after any call keeps the used bytes and all that can still come in for held torrents that are not stopped within the cap |
| HousekeeperUsage.GrowingPollKeepsExposure | workloads/qbittorrent-housekeeper/internal/housekeeper/engine.go:106-207 | the same while data comes in between the calls, up to what comes in for torrents this poll rejects, although the poll goes by the figures it started with |
| HousekeeperRuns.RunsStayWithin | workloads/qbittorrent-housekeeper/internal/housekeeper/engine.go:106-207 | whatever the tags, once the used bytes and the room of the running torrents are within the cap, no run of downloads, changes from outside, new torrents, finished deletions and polls cut off anywhere uses more than the cap and what came in, during polls, for torrents they were rejecting |
| HousekeeperRuns.StrayedOverfills | workloads/qbittorrent-housekeeper/internal/housekeeper/engine.go:163-174 | that much more can come in: twice the cap is used after one poll that rejects a running torrent and admits another |
| HousekeeperRuns.AdmittingPollIsSafe | workloads/qbittorrent-housekeeper/internal/housekeeper/engine.go:157-207 | after a poll that admits, with or without evictions and whatever the tags, the same bound holds for every run |
| HousekeeperRuns.RunsStaySafe | workloads/qbittorrent-housekeeper/internal/housekeeper/engine.go:106-207 | where no acceptable torrent is admitted and rejected at once, and none comes to be so from outside, the committed bytes stay within the cap over every run, run states, places and verdicts changing freely |
| HousekeeperRuns.EngineMadeOvercommit | workloads/qbittorrent-housekeeper/internal/housekeeper/engine.go:279-288 | a run in which the engine itself leaves both tags, the torrent moves inside the root, and two polls later the committed bytes are twice the cap |
| HousekeeperTheorems.EvictionThreshold | workloads/qbittorrent-housekeeper/internal/housekeeper/engine.go:239-265 | among the prefixes of the eligible order the candidate fits after exactly those at least as long as the chosen one |
| HousekeeperTheorems.EvictionsServeTheCandidate | workloads/qbittorrent-housekeeper/internal/housekeeper/engine.go:163-265 | a poll admits while candidates fit; for the first that does not, nothing is evicted if and only if no set of torrents that may be evicted would make it fit, and otherwise the shortest sufficient prefix is, after which the next poll finds that it fits |
| HousekeeperProgress.CandidatesExact | workloads/qbittorrent-housekeeper/internal/housekeeper/engine.go:523-538 | the candidates of a poll are exactly the listed torrents inside the root, within the cap and with known metadata that were stopped and not admitted |
| HousekeeperProgress.PollServes | workloads/qbittorrent-housekeeper/internal/housekeeper/engine.go:106-207 | a poll deletes exactly what is past retention, oldest first, or else serves the queue: an initial part of the oldest-first order is admitted and started within the cap, reserving the next one would exceed it, evictions are for that one, and every other torrent ends as rejected, completed, stopped, waiting or unchanged, told from how it was listed |
| HousekeeperProgress.PollDeletesExactly | workloads/qbittorrent-housekeeper/internal/housekeeper/engine.go:129-190 | the delete calls of a poll are exactly those for what it evicts |
| HousekeeperProgress.FetchingIsLeftAlone | workloads/qbittorrent-housekeeper/internal/housekeeper/engine.go:288-290 | a torrent inside the root whose size is unknown or whose metadata is being fetched or checked is neither stopped, tagged nor admitted, unless its admission was interrupted |
| HousekeeperProgress.DeletedWithCause | workloads/qbittorrent-housekeeper/internal/housekeeper/engine.go:226-265 | a poll deletes nothing marked to be kept or outside the root, and only what is past its retention or is a finished reservation with sound data in a run state that eviction knows |
| HousekeeperProgress.EvictionStateExactly | workloads/qbittorrent-housekeeper/internal/housekeeper/engine.go:587-595 | the run states eviction knows are recognised in capitals or not, and no others are |
| HousekeeperProgress.QueueRunsByAge | workloads/qbittorrent-housekeeper/internal/housekeeper/engine.go:617-641 | later in the queue is younger, by completion or else by when it was added, by hash at the same instant, and undated torrents come last |
| HousekeeperProgress.QueueIsUnique | workloads/qbittorrent-housekeeper/internal/housekeeper/engine.go:156-159 | hashes being unique, the queue is determined by the list: any way of sorting it serves the same torrents |
| HousekeeperTheorems.PollKeepsIdentity | workloads/qbittorrent-housekeeper/internal/housekeeper/engine.go:267-416 | a poll changes nothing of a torrent but its run state and the policy's three tags |
| HousekeeperTheorems.KeptTorrentsSurvive | workloads/qbittorrent-housekeeper/internal/housekeeper/engine.go:209-265 | a torrent with the keep tag or outside the root is never deleted |
| HousekeeperCrash.CrashLeavesReservations | workloads/qbittorrent-housekeeper/internal/housekeeper/engine.go:357-397 | cut off after any API call, every torrent the engine started or reserved is reserved for the next poll, which does not reject it |
| HousekeeperCrash.InterruptedAdmissionCompletes | workloads/qbittorrent-housekeeper/internal/housekeeper/engine.go:357-382 | a torrent left admitted and waiting ends started, admitted and not waiting if capacity still allows |
| HousekeeperCrash.CrashedAdmissionCompletes | workloads/qbittorrent-housekeeper/internal/housekeeper/engine.go:357-397 | both together, for every call a poll can be cut off after |
| HousekeeperEngine.Engine.Normalize | workloads/qbittorrent-housekeeper/internal/housekeeper/engine.go:267-355 | the loop sends the pass's calls in order up to the first that fails, fails exactly if one does, and otherwise holds the pass's result |
| HousekeeperEngine.Engine.FinishInterrupted | workloads/qbittorrent-housekeeper/internal/housekeeper/engine.go:357-382 | the same for completing interrupted admissions |
| HousekeeperEngine.Engine.Admit | workloads/qbittorrent-housekeeper/internal/housekeeper/engine.go:384-397 | tag, start and untag go out in this order up to the first that fails |
| HousekeeperEngine.Engine.RemoveTagsFrom | workloads/qbittorrent-housekeeper/internal/housekeeper/engine.go:399-416 | only present tags are removed, with no call when there are none |
| HousekeeperEngine.Engine.PressureEvictions | workloads/qbittorrent-housekeeper/internal/housekeeper/engine.go:239-265 | the search finds the least sufficient number of evictions |
| HousekeeperEngine.Engine.Reconcile | workloads/qbittorrent-housekeeper/internal/housekeeper/engine.go:106-207 | a poll succeeds if and only if the service answers all of its calls; it sends them in order up to the first that fails, and on success it deleted what is past retention or served the queue as stated above, for what its own copy says and for the delete calls it sent |
| ChatProtocol.AtMostOncePublished | workloads/satiksme-bot/internal/chatanalyzer/service.go:832-861 | over every run, with failing calls and stops anywhere, no message takes part in two published actions |
| ChatProtocol.PendingNamesItsAction | workloads/satiksme-bot/internal/chatanalyzer/service.go:289-301 | in every reachable state a pending message of a published action still carries that action's identifier |
| ChatProtocol.PublishedStays | workloads/satiksme-bot/internal/chatanalyzer/service.go:730-830 | a published action stays published and keeps its instant |
| ChatProtocol.ScanReachesCommit | workloads/satiksme-bot/internal/chatanalyzer/service.go:300-326 | the event-scan bound is never later than the commit of an action a listed message takes part in, nor later than the pass |
| ChatProtocol.TakeKeepsInv | workloads/satiksme-bot/internal/chatanalyzer/service.go:327-335 | after reconciliation no message handed to the model takes part in a published action |
| ChatProtocol.SubmitKeepsInv | workloads/satiksme-bot/internal/chatanalyzer/service.go:991-1009 | publishing keeps the invariant whatever the reply says, and never reuses a source |
| ChatProtocol.StepKeepsInv | workloads/satiksme-bot/internal/chatanalyzer/service.go:204-581 | every step of the protocol keeps the invariant |
| ChatAnalyzer.Analyzer.ApplyClaimedDecision | workloads/satiksme-bot/internal/chatanalyzer/service.go:832-861 | the sources are claimed in order up to the first failing write; the outcome is applied if and only if all claims work and the service accepts, uncertain if and only if it then refuses, pending under the action otherwise, and the action is published exactly when the submit is reached and commits |
| ChatAnalyzer.Analyzer.SubmitAction | workloads/satiksme-bot/internal/chatanalyzer/service.go:991-1009 | accepted means committed and applied, refused means neither, an error leaves the outcome pending under the action whether it committed or not |
| ChatAnalyzer.Analyzer.ScanStart | workloads/satiksme-bot/internal/chatanalyzer/service.go:289-322 | computes the carried identifiers and the earliest known instant, never in the future |
| ChatAnalyzer.EarlierStamp | workloads/satiksme-bot/internal/chatanalyzer/service.go:305-310 | the least of the non-zero instants seen |
| ChatAnalyzer.Analyzer.ReconcileCommittedActionClaims | workloads/satiksme-bot/internal/chatanalyzer/service.go:289-377 | messages of committed actions end applied; those that remain are unchanged and in no published action; it fails exactly when the scan, a write or the record of the sweep does |
| ChatAnalyzer.Analyzer.MarkCommitted | workloads/satiksme-bot/internal/chatanalyzer/service.go:328-355 | one walk splits the listed messages into applied and remaining ones |
| ChatAnalyzer.Analyzer.EvaluateEntries | workloads/satiksme-bot/internal/chatanalyzer/service.go:1432-1668 | each report or vote ends its messages as its verdict, its claims and the service's reply say, overwrites no outcome, and what is published is exactly the entries whose submits commit |
| ChatAnalyzer.Analyzer.EvaluateBatchDecisions | workloads/satiksme-bot/internal/chatanalyzer/service.go:1425-1683 | on a valid decision the decided messages are exactly the claimed ones, each ends as its entry says or ignored, and what is published is exactly the committing entries |
| ChatAnalyzer.Analyzer.AddFallbackOmittedSignalOutcomes | workloads/satiksme-bot/internal/chatanalyzer/service.go:1685-1756 | exactly the undecided messages that look like a signal get a report of their own, evaluated like any other, and no outcome is overwritten |
| ChatAnalyzer.Analyzer.FinalizeBatch | workloads/satiksme-bot/internal/chatanalyzer/service.go:567-581 | a finalizing store writes all outcomes or none; an older one writes them in order up to the first failure; it succeeds exactly when the writes, and there the record of the batch, do |
| ChatAnalyzer.Analyzer.ExpireStale | workloads/satiksme-bot/internal/chatanalyzer/service.go:623-657 | in one statement every stale pending message is ignored and keeps its action identifier; page by page those of one page are and lose it; it succeeds exactly when the writes do, and a complete expiry reaches all |
| ChatAnalyzer.Analyzer.ProcessBatch | workloads/satiksme-bot/internal/chatanalyzer/service.go:408-565 | a batch finishes exactly when its final writes work, and then the rows hold the outcomes that the decision gives every message: that of its entry or of its own report, or ignored when there is none; a failed model leaves every message pending under its claim, an invalid decision, or two rows with one message identifier, leaves it uncertain, and neither publishes anything |
| ChatAnalyzer.Analyzer.ProcessPendingBatch | workloads/satiksme-bot/internal/chatanalyzer/service.go:204-287 | after any pass published actions are mutually exclusive and pending messages still name theirs; a pass without an error ignores what is too old and, of a full page of the rest, applies what was committed before, gives what is due the outcome of its batch and leaves what is not due; it has no error when nothing but claims and submits fails |
| ChatAnalyzer.Analyzer.EvaluateEntry | workloads/satiksme-bot/internal/chatanalyzer/service.go:1432-1586 | a settled verdict claims and publishes nothing and gives its status; any other claims the sources and gives the answer to the submit |
| ChatAnalyzer.Analyzer.TakeDue | workloads/satiksme-bot/internal/chatanalyzer/service.go:252-267 | of the messages that remain exactly those whose retry is due are handed to the model |
| ChatWorld.EndsHonestly | workloads/satiksme-bot/internal/chatanalyzer/service.go:1669-1683 | an applied outcome names a published action of its message, a pending one the claimed action, any other none |
| ChatWorld.SettlesOneMore | workloads/satiksme-bot/internal/chatanalyzer/service.go:1432-1668 | one more entry gives its own messages their outcome and leaves those decided before |
| ChatDecisions.ValidateUniqueBatchDecisionSources | workloads/satiksme-bot/internal/chatanalyzer/service.go:1375-1423 | accepts exactly the decisions in which every entry has sources, all in a duplicate-free batch, and no message is claimed twice |
| ChatAnalyzer.ChooseDecision | workloads/satiksme-bot/internal/chatanalyzer/service.go:491-526 | a valid first answer is merged with the second one where there is one; what is evaluated is valid, and an invalid first answer is never merged |
| ChatDecisions.OnlyRecheckSourceIds | workloads/satiksme-bot/internal/chatanalyzer/service.go:2148-2162 | keeps the rechecked messages once each, in order of first appearance |
| ChatDecisions.KeptInOrder | workloads/satiksme-bot/internal/chatanalyzer/service.go:2148-2162 | what is kept of the sources stands in order of first appearance |
| ChatDecisions.MergeLocationReasoningDecision | workloads/satiksme-bot/internal/chatanalyzer/service.go:2066-2137 | produces a merge: untouched first entries, then the restricted reasoned ones, the last reasoned ignore of each message once |
| ChatDecisions.MergeValidity | workloads/satiksme-bot/internal/chatanalyzer/service.go:2066-2137 | the merge into a valid decision is valid if and only if the restricted second decision claims no message twice |
| ChatDecisions.MergePrecedence | workloads/satiksme-bot/internal/chatanalyzer/service.go:2106-2136 | of each kind of entry the merge has exactly the first ones none of whose messages the second decision speaks of, word for word, and the second ones that speak of a rechecked message, restricted to those; of the ignores, likewise, the first ones left alone and the second decision's last one of each message |
| ChatDecisions.MergeCanBeInvalid | workloads/satiksme-bot/internal/chatanalyzer/service.go:2071-2085 | two reasoned reports of one message make the merge of a valid decision invalid |
| Collector.BoundedLimit | workloads/satiksme-bot/internal/chatanalyzer/mtproto_collector.go:272-280 | the page size lies between 1 and 100 and is the asked one where possible |
| Collector.FilterCollectedMessages | workloads/satiksme-bot/internal/chatanalyzer/mtproto_collector.go:215-246 | a page yields its fresh messages in order, the number of stale ones and its greatest identifier |
| Collector.ContainsFresh | workloads/satiksme-bot/internal/chatanalyzer/mtproto_collector.go:198-213 | finds out whether a page holds a fresh message above the cursor |
| Collector.PageIsGapFree | workloads/satiksme-bot/internal/chatanalyzer/mtproto_collector.go:256-270 | up to its greatest identifier a forward page of a growing chat misses nothing, and it advances if newer messages existed when the collection began |
| Collector.CollectForwardMessages | workloads/satiksme-bot/internal/chatanalyzer/mtproto_collector.go:134-196 | although the chat grows between fetches, the collected messages are exactly the fresh ones up to the checkpoint, in order, the skipped count exactly the stale ones, and the checkpoint advances if anything newer existed at the start; full pages of stale history are passed until the edge or the page budget, and the first page with something fresh is the last; only a failing fetch ends it without a result |
| Collector.Feed.Begin | workloads/satiksme-bot/internal/chatanalyzer/mtproto_collector.go:100-110 | the first collection stores nothing and notes exactly the greatest identifier of the newest page, unless the page is empty or the save fails |
| Collector.Feed.CollectNewMessages | workloads/satiksme-bot/internal/chatanalyzer/service.go:161-202 | a collection succeeds exactly when its fetches, stores and save work, and then everything collected is stored and the checkpoint is where it ended; whatever fails, every fresh message at or below the checkpoint is stored |
| Levenshtein.LevenshteinWithin | workloads/satiksme-bot/internal/chatanalyzer/candidates.go:793-822 | true exactly when at most the given number of insertions, deletions and replacements anywhere turns one string into the other |
| Levenshtein.DistIsLeast | workloads/satiksme-bot/internal/chatanalyzer/candidates.go:803-821 | the recurrence computes the least number of edits |
| Levenshtein.EditMovesByOne | workloads/satiksme-bot/internal/chatanalyzer/candidates.go:807-816 | one edit at any position changes the distance to any target by at most one |
| Levenshtein.LengthsBound | workloads/satiksme-bot/internal/chatanalyzer/candidates.go:796-798 | the length difference is a lower bound of the distance |
| Levenshtein.FinalAbove | workloads/satiksme-bot/internal/chatanalyzer/candidates.go:817-819 | a row entirely above the bound puts the final distance above it |
| Levenshtein.MinInt | workloads/satiksme-bot/internal/chatanalyzer/candidates.go:824-832 | the least of its arguments |
| Scheduler.Settings.WithDefaults | workloads/satiksme-bot/internal/chatanalyzer/types.go:193-214 | defaults make settings valid, keep valid distinct ones, and leave equal minutes in exactly one case |
| Scheduler.ScheduledIsLeastSlot | workloads/satiksme-bot/internal/chatanalyzer/service.go:2445-2518 | the scheduled instant is the least one at or after now that is a whole number of intervals after an opening and inside that window |
| Scheduler.OpensAtLeastInstant | workloads/satiksme-bot/internal/chatanalyzer/service.go:2480-2502 | the opening instant is the least in-window instant at or after now |
| Scheduler.ThrottledIsLeast | workloads/satiksme-bot/internal/chatanalyzer/service.go:2402-2418 | the throttled instant is the least in-window one at or after the candidate and the last pass plus the interval |
| Scheduler.Run | workloads/satiksme-bot/internal/chatanalyzer/service.go:91-136 | a firing makes a pass if and only if one is due that the schedule, a retry or a poll with messages asked for since the last; exactly the passes that processed are recorded, never closer together than the interval |
| HostMirror.ClashesMeansNoMerge | tools/arbuzas/host_mirror.py:328-351 | a conflict is declared exactly when no state of the path contains the changes of both sides |
| HostMirror.ClassifyPath | tools/arbuzas/host_mirror.py:307-385 | a side is listed exactly when the other side does not contain its changes and a merge exists |
| HostMirror.Classify | tools/arbuzas/host_mirror.py:296-385 | the three lists are increasing and hold exactly the paths that belong in them |
| HostMirror.ClassificationSymmetric | tools/arbuzas/host_mirror.py:379-384 | swapping the sides swaps the first two lists and keeps the conflicts |
| HostMirror.PullGate | tools/arbuzas/host_mirror.py:490-517 | the pull gate opens exactly when the host contains every local change since the last synchronization |
| HostMirror.PushGate | tools/arbuzas/host_mirror.py:734-745 | the push gate opens exactly when the mirror contains every host change since then |
| HostMirror.AfterPush | tools/arbuzas/host_mirror.py:572-581 | writing the listed paths makes both sides equal wherever pushing is allowed and touches nothing else |
| HostMirror.Mirror.Pull | tools/arbuzas/host_mirror.py:520-535 | pull goes ahead if and only if nothing local would be lost; then the allowed paths are those of the host, with private modes where needed, every other path stays, every local change is kept and the host is recorded; a blocked pull only makes modes private |
| HostMirror.Mirror.Push | tools/arbuzas/host_mirror.py:704-758 | push goes ahead if and only if nothing remote would be lost, keeps every host change, leaves host and mirror equal on pushable paths, records the mirror if anything was written, and makes local modes private in any case |
| HostMirror.QuietAfterPull | tools/arbuzas/host_mirror.py:468-487 | comparing right after a pull finds no conflict and no host change, and as local changes exactly the pushable paths whose mode on the host is not the private one they need |
| Outbox.BackoffDoubles | workloads/satiksme-bot/internal/bot/report_dump.go:354-363 | a retry waits one second at first, twice as long with each attempt up to the ninth, and 256 seconds from then on, so never the five minutes of the code's limit |
| Outbox.DumpDispatcher.StoreItem | workloads/satiksme-bot/internal/bot/report_dump.go:158-184 | an enqueue that succeeds is followed by a signal; one that reports an error is not |
| Outbox.DumpDispatcher.SignalWake | workloads/satiksme-bot/internal/bot/report_dump.go:322-334 | a signal always leaves a token in the one-slot channel |
| Outbox.DumpDispatcher.NextWakeDelay | workloads/satiksme-bot/internal/bot/report_dump.go:336-352 | the delay is that until the next item is due, none for an empty outbox, and the interval when looking fails; it is not too long for any announced item unless a wake is coming |
| Outbox.DumpDispatcher.WaitForDumpWake | workloads/satiksme-bot/internal/bot/report_dump.go:395-420 | without a signal the dispatcher does not wake before its deadline, no signal comes unless something is stored, and it sleeps for ever only with no wake coming and nothing stored but items whose write reported an error |
| Outbox.DumpDispatcher.Dispatch | workloads/satiksme-bot/internal/bot/report_dump.go:95-134 | an item whose send works is deleted unless that fails; one whose send fails is put off by the backoff with one attempt more unless that fails; nothing else changes |
| Outbox.DumpDispatcher.Turn | workloads/satiksme-bot/internal/bot/report_dump.go:59-134 | a turn whose load works tries the item due first if any is due, with the effects stated for dispatching, and only that one |
| Outbox.DumpDispatcher.Run | workloads/satiksme-bot/internal/bot/report_dump.go:45-135 | for every interleaving of enqueuers an item leaves only after its send succeeded and the dispatcher is not stranded with an announced item; when loads, sends and deletes work, an item due at the start is sent within as many turns as there are items due no later and items that come in |
| Outbox.DumpDispatcher.StoreWhileAsleep | workloads/satiksme-bot/internal/bot/report_dump.go:158-184 | when the dispatcher sleeps without a deadline and no wake is coming, writes bring one exactly if one of them succeeds, and an item is stored without one exactly if its write reported an error and none succeeded |
| Outbox.DumpDispatcher.LateFailureStrands | workloads/satiksme-bot/internal/bot/report_dump.go:174-183 | an empty outbox puts the dispatcher to sleep without a deadline, and a write that stores and reports an error leaves its item there |
| RateLimiter.AtMostTwiceTheLimit | workloads/shared-go/telegramweb/rate_limit.go:39-63 | any half-open interval of one window allows at most one call less than twice the limit, plus the calls at the zero instant inside it, for all calls in time order |
| RateLimiter.BoundIsAttained | workloads/shared-go/telegramweb/rate_limit.go:39-63 | for every limit, every window of three units of time or more and every number of calls at the zero instant, some ordered calls reach that bound |
| RateLimiter.BoundIsAttainedLater | workloads/shared-go/telegramweb/rate_limit.go:39-63 | without any call at the zero instant, twice the limit less one is allowed from every later instant on, for windows of two units of time or more |
| RateLimiter.ZeroInstantIsUnlimited | workloads/shared-go/telegramweb/rate_limit.go:52-56 | at the zero instant every call is allowed |
| RateLimiter.DeniedUntil | workloads/shared-go/telegramweb/rate_limit.go:57-59 | a denied client is allowed again exactly from the returned wait on, and a denial changes nothing |
| RateLimiter.CountedCall | workloads/shared-go/telegramweb/rate_limit.go:51-62 | a deleted entry answers the next call like the entry it was |
| RateLimiter.ClientsKeptApart | workloads/shared-go/telegramweb/rate_limit.go:43-46 | two clients are counted as one exactly when their keys differ by nothing but surrounding white space, or are blank and literally unknown |
| RateLimiter.ClientRateLimiter.Allow | workloads/shared-go/telegramweb/rate_limit.go:39-63 | with nondecreasing times every answer is that of a limiter that never deletes anything |
| RateLimiter.ClientRateLimiter.Cleanup | workloads/shared-go/telegramweb/rate_limit.go:65-75 | above the threshold exactly the entries whose window is over go |
| Batching.WriteBatches | workloads/operational-logging/scripts/migrate-retained-history.py:862-878 | fails exactly on an overweight event; otherwise the batches are non-empty, within the limits, join to the input and are as few as any such split |
| Batching.OneBatchMore | workloads/operational-logging/scripts/migrate-retained-history.py:871-874 | where greed closes a batch, every split that reaches the next event has used one batch more |
| Batching.WeightOfEncoding | workloads/operational-logging/scripts/migrate-retained-history.py:842-859 | an event's weight is 96 and the number of bytes of its fields' UTF-8 encoding |
| TextSearch.CountConcat | infra/arbuzas/netdata/native-dashboard/arbuzas_netdata_native_dashboard.py:86-98 | occurrences add up where the character before the seam is not inside the searched text |
| TextSearch.MarkedBlockIsFound | infra/arbuzas/netdata/native-dashboard/arbuzas_netdata_native_dashboard.py:86-98 | a block with one of each marker, put after a '>' into a document without markers, is found exactly where it was put |
| HtmlPatch.BlockIsFound | infra/arbuzas/netdata/native-dashboard/arbuzas_netdata_native_dashboard.py:86-98 | so is the managed block |
| HtmlPatch.BlockCounts | infra/arbuzas/netdata/native-dashboard/arbuzas_netdata_native_dashboard.py:131-141 | the block holds each marker and each attribute once |
| HtmlPatch.ApplySucceedsExactly | infra/arbuzas/netdata/native-dashboard/arbuzas_netdata_native_dashboard.py:161-180 | a document without markers is patched if and only if it declares no viewport, or one that names the device width, and has exactly one head tag; the block goes right behind that tag, with a viewport of its own if there is none |
| HtmlPatch.RemoveUndoesApply | infra/arbuzas/netdata/native-dashboard/arbuzas_netdata_native_dashboard.py:161-189 | removing after applying gives the document back that was read |
| HtmlPatch.RemoveRestoresFile | infra/arbuzas/netdata/native-dashboard/arbuzas_netdata_native_dashboard.py:71-83 | applying to a file and removing leaves what reading it yielded, which is the file as it was if and only if it had no carriage return |
| HtmlPatch.ReturnIsNotRestored | infra/arbuzas/netdata/native-dashboard/arbuzas_netdata_native_dashboard.py:212-236 | a concrete file that differs after applying and removing |
| HtmlPatch.ApplyFileReplaces | infra/arbuzas/netdata/native-dashboard/arbuzas_netdata_native_dashboard.py:212-236 | applying to a patched file is applying to the original, so a run that stopped between two pages can be run again |
| HtmlPatch.RemoveRestoresRefreshed | infra/arbuzas/netdata/native-dashboard/arbuzas_netdata_native_dashboard.py:71-83 | the same if and only if holds after a refresh with other assets |
| HtmlPatch.ApplyReplaces | infra/arbuzas/netdata/native-dashboard/arbuzas_netdata_native_dashboard.py:161-180 | applying other assets to a patched document is applying them to the original |
| HtmlPatch.ApplyIsIdempotent | infra/arbuzas/netdata/native-dashboard/arbuzas_netdata_native_dashboard.py:161-180 | applying twice is applying once |
| HtmlPatch.RemoveUndoesRefresh | infra/arbuzas/netdata/native-dashboard/arbuzas_netdata_native_dashboard.py:161-189 | applying, refreshing with other assets and removing gives the document back that was read |
| HtmlPatch.CheckAcceptsApplied | infra/arbuzas/netdata/native-dashboard/arbuzas_netdata_native_dashboard.py:192-209 | the check accepts a patched document if and only if the original mentions neither attribute |
| HtmlPatch.CheckCanReject | infra/arbuzas/netdata/native-dashboard/arbuzas_netdata_native_dashboard.py:203-208 | a concrete page that is patched and then rejected |
| HtmlPatch.CheckIsExact | infra/arbuzas/netdata/native-dashboard/arbuzas_netdata_native_dashboard.py:192-209 | the check accepts exactly the documents that hold a block, that applying leaves as they are, that declare one viewport and that mention each attribute once |
| HtmlPatch.AppliedHasOneViewport | infra/arbuzas/netdata/native-dashboard/arbuzas_netdata_native_dashboard.py:161-180 | whatever applying makes of a document declares exactly one viewport |
| HtmlPatch.Site.Run | infra/arbuzas/netdata/native-dashboard/arbuzas_netdata_native_dashboard.py:239-281 | without best effort one bad page stops every write; the run stops at the first write that fails, with exactly the pages before it written; otherwise every page whose plan differs from what was read holds what was planned, and no other changes |
| RollbackRecord.Base64RoundTrip | infra/arbuzas/tiny-vless/manage.py:410-448 | decoding an encoded file content gives it back |
| RollbackRecord.SnapshotRoundTrip | infra/arbuzas/tiny-vless/manage.py:410-456 | every snapshot that can be taken comes back from JSON as it was |
| RollbackRecord.RecordRoundTrip | infra/arbuzas/tiny-vless/manage.py:459-548 | a record the writer accepts is the record the loader returns |
| RollbackRecord.DecodedIsTaken | infra/arbuzas/tiny-vless/manage.py:253-278 | putting back whatever a record decodes to, links with half an owner included, leaves something a snapshot can be taken of |
| Deploy.StagingUndone | infra/arbuzas/tiny-vless/manage.py:380-402 | a staging that fails anywhere and is undone leaves every file as it was |
| Deploy.StagingSucceedsExactly | infra/arbuzas/tiny-vless/manage.py:380-402 | staging gets through if and only if every destination can be snapshotted and every write works |
| Deploy.SnapshotsExactly | infra/arbuzas/tiny-vless/manage.py:385-399 | a snapshot is taken of a destination if and only if it can be taken and every destination before it was snapshotted and written |
| Deploy.StagingFailureExact | infra/arbuzas/tiny-vless/manage.py:380-407 | a failed staging leaves all files as they were if and only if its undo works throughout, or the path it stops at is back, told by how its write and its restore ended, and every path before it already held what was wanted |
| Deploy.StagingCanTear | infra/arbuzas/tiny-vless/manage.py:399-401 | a new file stays although no rollback failure is reported: the second write fails, and so does the first restore |
| Deploy.RestoreAt | infra/arbuzas/tiny-vless/manage.py:405-407 | a restore that gets through puts each of its paths back and leaves the others |
| Deploy.RestoresExactly | infra/arbuzas/tiny-vless/manage.py:405-407 | a restore gets through if and only if every path holds something that can be replaced, its snapshot can be put back and its step works |
| Deploy.Host.StageManagedFiles | infra/arbuzas/tiny-vless/manage.py:380-402 | the loop snapshots and replaces file after file, undoes itself on failure, and succeeds exactly when every step does |
| Deploy.Host.RestoreManagedFiles | infra/arbuzas/tiny-vless/manage.py:405-407 | the loop restores in reverse and stops at the first failure |
| Deploy.Host.WritePendingRollback | infra/arbuzas/tiny-vless/manage.py:459-502 | an existing record is never replaced, and success means exactly that the place was empty, the record acceptable and the write complete |
| Deploy.Host.RollbackPendingTransaction | infra/arbuzas/tiny-vless/manage.py:899-908 | a rollback succeeds if and only if the record is readable, every recorded path can be restored and every step works; then all files are as recorded; the record goes exactly when all is back and the clearing took effect |
| Deploy.Host.DeployFiles | infra/arbuzas/tiny-vless/manage.py:1684-1729 | an earlier record survives; success, a failed rollback and a record left behind have exact conditions; success installs every file with the pre-deploy snapshots on record; after an ordinary failure the files are as before if and only if a failed staging was harmless and a deployment left in place changed nothing, and what is left in place is on record |
| Deploy.Host.AbortAction | infra/arbuzas/tiny-vless/manage.py:1786-1796 | an abort succeeds if and only if there is no record or its rollback gets through, restores every file before the record goes, changes nothing without one, and refuses an unreadable one |
| Deploy.Host.CommitPendingTransaction | infra/arbuzas/tiny-vless/manage.py:911-913 | a commit succeeds if and only if the record is readable and clearing it works, and only then, or when the clearing fails late, the record goes |
| Deploy.Host.DeployThenAbort | infra/arbuzas/tiny-vless/manage.py:1656-1796 | the abort after a deferred deployment gets through if and only if no record was left, an interrupted abort had cleared it, or its own steps work; then, after any number of interrupted ones, it is as if nothing had happened if and only if a failed staging was harmless; after a deployment whose own undo failed it restores every file if the record was written late, and otherwise leaves what the undo left |

## Left out

- HousekeeperEngine.Engine.Reconcile: path, retention and metadata checks are booleans of a torrent, because their clocks and floating-point ratios are not modelled; retention is judged once, on the torrents as listed, and the run-state part of the eviction check is modelled as the poll left the state, for letters A to Z; the listing, disk usage and status store are inputs.
- HousekeeperCapacity.CapacitySafety: untracked growth of the disk is not a step, because the engine cannot prevent it; downloads are bounded by the torrent's size.
- HousekeeperRuns.RunsStayWithin: data comes in for held torrents that run; what a torrent that is not held brings in before a poll stops it, and other growth of the disk, is not modelled, because the engine does not count it. Nobody but the engine starts, tags or enlarges a torrent so that more can come in for it.
- HousekeeperRuns.RunsStaySafe: from outside no torrent comes to be held, and a held one keeps its size.
- ChatProtocol.AtMostOncePublished: assumes a submit commits during the call or never, one analyzer process, local clock readings that never go back, and that reports and rows it needs are not cleaned up by the retention job; stored instants are not cut to whole seconds.
- ChatProtocol.StepKeepsInv: does not claim that every published action ends applied, because stale expiry runs first and can mark such a message ignored.
- ChatAnalyzer.Analyzer.EvaluateEntries: confidence, targets, incident lookup, duplicate windows and dry-run settings are one verdict per entry, any function of the entry.
- ChatAnalyzer.Analyzer.AddFallbackOmittedSignalOutcomes: which omitted messages look like a signal and get a report is any function of the message.
- ChatAnalyzer.Analyzer.ProcessBatch: a message stands for its stored row; two rows with one message identifier are a flag of the batch, because the validation then refuses every decision.
- ChatAnalyzer.Analyzer.ProcessPendingBatch: which messages are due and whether the circuit to the model is open are given from outside, not computed from retry delays; the retry instant a pass returns is not modelled.
- ChatDecisions.MergeLocationReasoningDecision: action, target and confidence of an entry are one opaque text, and the rewriting of reasons is any function.
- Collector.Feed.CollectNewMessages: one chat with one checkpoint, whose messages are not edited or deleted; the first collection skips history on purpose; peer resolution and the session are not modelled.
- Scheduler.ScheduledIsLeastSlot: a fixed offset from UTC, without daylight-saving changes.
- Scheduler.Run: the timer may fire at any instants after the zero instant; the sleeping time between firings is not modelled.
- HostMirror.Mirror.Push: commands are atomic; symbolic links, empty directories, unmanaged historical copies and the transfer over SSH are not modelled.
- Outbox.DumpDispatcher.Run: a configured client and chat; no time passes between computing a delay and arming the timer; the cached pending count and the runtime status are left out.
- RateLimiter.ClientRateLimiter.Allow: the mutex makes calls atomic; trimming covers the common white-space characters only; deriving the key from a request is left out.
- HtmlPatch.CheckAcceptsApplied: the three regular expressions are predicates on the pieces of text that end in '>', with the facts they have on the managed block as premises; manifest loading and file ownership are left out.
- HtmlPatch.RemoveRestoresFile: a file is its decoded text; the UTF-8 encoding itself is not modelled.
- RollbackRecord.RecordRoundTrip: JSON values are modelled, with integers as their only numbers; their text is not.
- Deploy.Host.DeployFiles: nginx, units, the container, validation and the database fingerprint are steps that may fail; a kill of the process between staging and the record is not covered by the original and not claimed here.
- The adoption command with its compatibility swaps: after a swap is committed its backup is gone, so it is not all-or-nothing.
- Fuzzy scoring, transliteration, geographic distance and live-vehicle candidates.
- Release and image clean-up, memory reports, the append-only reducers, statistics, the catalog builder and the AdGuard publisher: they would add easy members.
- Web interfaces, configuration loading, sign-in and cryptography.
