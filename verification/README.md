# Verified model of SDDB

SDDB polls agents that watch Docker hosts, upgrades containers by itself, and reports crashes.
This project models the parts of it that carry guarantees over whole runs, and proves them:

- **Auto-updates.** `Poller` has the dashboard's locked sections, `Jobs` the agent's job table,
  `AgentProcess` the agent around it; `Protocol` puts them together as one transition system,
  `Interleaving` takes any number of auto-update runs apart at their lock boundaries, `Pacing`
  follows one container through any sequence of runs, `Slowdown` through any run of the system, and
  `Starting` says what one run starts.
- **Recreating a container.** `Daemon` is a Docker daemon in which any call may fail, `Upgrade`
  the transaction with its rollback, and `Rebase`, `Volumes` and `Networks` the laws of the
  settings it carries over.
- **Crash alerts.** `Alerts` is the state machine of one container beside its unpruned history,
  `Notifier` the object that runs it for all containers.
- **Addresses.** `Cidr` enumerates the hosts of a network on byte arrays (section 3.1 of RFC 4632).
- **Tables, caches and parsers.** `AgentTable` and `AgentRuns`, `LoginLimiter` and
  `LoginReaper`, `UpdateCache`, `ImageRef`, `AuthChallenge` (section 2.1 of RFC 7235), on `Text` and `Base`.

Objects that the source changes in place are classes; each method's new state is equated with a
function of the old one, and runs are reasoned about on those functions. A loop over a Go map takes
the keys in an arbitrary order. Time is in nanoseconds and every clock reading is an input.

## What is assumed

- `Protocol`: a refresh and a poll are atomic, and a poll acts on the last published snapshot; a
  POST that fails started nothing; a job ends within a given bound. The agent's clock is not
  trusted at all. The dashboard's claims are in memory, so restarting it is not a step.
- `Interleaving`: while a POST has not returned, no other run enters with a snapshot that shows
  the claimed container finished since it was claimed; and a POST ends within a limit, which is
  the HTTP client's 15 minutes. `AlwaysOrderlyExactly` shows that every run is orderly exactly with
  both, the limit being at most the in-flight timeout; `CoveredExactlyWhenOrderly` shows it of each
  single run.
- `Slowdown`: nothing beyond `Protocol`. What it takes for failures to be slow is a result.
- `Upgrade`: the inspected response is current. A stop or start that fails may have taken effect;
  other failed calls have no effect. Success additionally wants free names, new IDs and
  an image the registry has under a new ID.
- `Rebase` states Docker's merge of user settings over image defaults: environment by key, a set
  entrypoint or command over the image's (an entrypoint also shuts out the image's command), the
  image's labels under the user's. `Networks` states Docker's attachment rule: a container created
  without endpoints joins the network of its mode.
- `LoginLimiter`: in whole runs the clock readings of one recorded failure are one. The bound on
  failures takes the attempts of one address not to overlap; `LoginReaper` does not.
- `AgentRuns`: where it says so, agents report unique IDs, none of them another agent's address.

## Where the code differs from its documentation or from what one might expect

- Crashes seen while a host is muted are not recorded at all.
- A success resets a container's failure count only if the container still shows an update when
  the finished job is seen.
- Failures in a row need not take the sum of their waits. They do exactly if users start no upgrades
  of the container by hand, no request for another container starts one (names can change hands
  between a poll's stats and its request), and the dashboard acts on no stats older than its
  in-flight timeout: `Slowdown.AlwaysSlowExactly`, with a failing run for each. The last is not
  about users: an agent that cannot list its containers keeps serving its old stats.
- The login window begins with the first failure and does not slide. Eight failures fit into
  fifteen minutes, three of one window and five of the next, and no more.
- The limiter's reaper can be told from its absence exactly if a failure is recorded on a lock that
  has run out, by an attempt admitted before the lock: `LoginReaper.InvisibleExactly`.
- An update found for an image comes back after its cache entry was dropped, if a check that was
  under way then fails: `UpdateCache.DroppedValueRevived`.
- A user setting that repeats the old image's default is taken for the default. The container
  comes out the same exactly if the new image repeats it as well: `Rebase.RebaseExactly`,
  `Rebase.RestatedVariableChanges`.
- A recreated container keeps exactly its old networks only if the network of its mode was among
  them: `Networks.SameNetworksExactly`, `Networks.MovedContainerRejoins`.
- An agent that reports another agent's ID, or an address that is another agent's ID, replaces
  that agent's record: `AgentRuns.RefinesUnlessCollision`, `AgentRuns.TwinsLoseARecord`.

## Model

| member | source | states |
|---|---|---|
| Jobs.JobTracker.Start | internal/agent/jobs.go:41-77 | refuses exactly while a job of that name runs; otherwise adds a running record that the new goroutine shares, and keeps one live goroutine per running entry |
| Jobs.JobTracker.Complete | internal/agent/jobs.go:51-65 | writing through the captured record is writing the map entry of that name, and changes nothing else |
| Jobs.JobTracker.Snapshot | internal/agent/jobs.go:81-94 | returns and keeps exactly the entries that are running or not yet an hour old |
| Jobs.JobTracker.OneLiveJobPerName | internal/agent/jobs.go:41-48 | two live goroutines of one name are one, and the entry under it is running |
| Jobs.RunningJobIsKept | internal/agent/jobs.go:41-94 | through any starts, finishes and snapshots a running job stays the entry of its name until it completes |
| Jobs.OutcomeIsRetained | internal/agent/jobs.go:81-94 | through any other operations an outcome is reported unchanged for jobRetention, unless a new job takes its name |
| Jobs.OldOutcomeIsForgotten | internal/agent/jobs.go:81-94 | an outcome older than that, plus the second lost to rounding, is gone from the next snapshot |
| Jobs.OutcomeReported | internal/agent/jobs.go:41-65 | through any other operations a job ends up with its action, the whole seconds it started and ended at, and its error exactly if it failed |
| AgentProcess.AgentProcess.Refresh | internal/agent/agent.go:140-171 | publishing the marked containers and the job snapshot is the protocol's refresh; a failed listing changes nothing |
| AgentProcess.MarkedExactly | internal/agent/agent.go:146-150 | a published container is as listed, with an update exactly if its image is cached as having one |
| AgentProcess.AgentProcess.StartJob | internal/agent/agent.go:266-298 | accepts exactly if nothing runs under the container's name, and then does the protocol's launch |
| AgentProcess.AgentProcess.FinishJob | internal/agent/agent.go:276-290 | the end of a job is the protocol's finish, and exactly a successful upgrade drops its old image's cached status |
| Poller.UpdatePoller.CheckBusy | internal/dashboard/poller.go:226-251 | the loop over the snapshot decides and edits the claim as the locked section's function does |
| Poller.UpdatePoller.CheckAndClaim | internal/dashboard/poller.go:155-192 | the whole new bookkeeping of one visited container: accounting, waiting, claiming |
| Poller.UpdatePoller.AfterPost | internal/dashboard/poller.go:196-213 | the whole new bookkeeping after a refused, completed or pending request |
| Poller.UpdatePoller.RunAutoUpdates | internal/dashboard/poller.go:139-222 | a sequential run is the composition of its locked sections, with the same log and at most one upgrade left running |
| Starting.RunningUpgradeStopsRun | internal/dashboard/poller.go:226-231 | while the stats show any upgrade running, whoever started it, a run reports nothing, sends nothing and changes nothing |
| Starting.RunningUpgradeStopsPoll | internal/dashboard/poller.go:136-142 | in the whole system a poll on such stats changes nothing |
| Starting.RunningUpgradeStopsEntry | internal/dashboard/poller.go:226-231 | nor does a run entering among others |
| Starting.OnlyAllowedAreSent | internal/dashboard/poller.go:143-152 | every send is of a container that runs, has an update, is not protected and is set to update by itself |
| Starting.FirstDueIsSent | internal/dashboard/poller.go:139-222 | an idle agent's first container that may be updated and is due is sent, and left claimed if the agent takes it |
| Starting.FailureAccounted | internal/dashboard/poller.go:163-185 | a failed upgrade seen first adds one failure and holds the container by its own error's wait |
| Starting.RefusalAccounted | internal/dashboard/poller.go:197-206 | so does a refused request, by the error it was refused with, and frees the agent |
| Starting.RateLimitsExactly | internal/dashboard/poller.go:74-76 | exactly the errors that contain one of the two phrases wait an hour at least |
| Pacing.HistoryIsPaced | internal/dashboard/poller.go:155-212 | over any sequence of runs from any state: sends of a container are autoCooldown apart, each failure announces the backoff of its streak and is followed by no send within it unless another failure comes first, and no finished job is counted twice |
| Pacing.NextCoversHistory | internal/dashboard/poller.go:162-206 | next is at least every send plus autoCooldown and the last failure plus its backoff; failures is the streak in the history |
| Pacing.BackoffDoubles | internal/dashboard/poller.go:69-78 | the capped shift is min(10 * 2^(i-1), 360) minutes for every count, at least an hour under a rate limit |
| Pacing.RepeatedFailuresSlowDown | internal/dashboard/poller.go:69-78 | over any runs from any state: failures of one streak with a send between any two take the sum of the waits in between |
| Pacing.StreakCounts | internal/dashboard/poller.go:168-178 | failures in a row are counted one by one, on top of the count they start with |
| Pacing.ManualFailuresAreNotPaced | internal/dashboard/poller.go:168-178 | two upgrades that users start by hand fail a minute apart, with no send between |
| Slowdown.AlwaysSlowExactly | internal/dashboard/poller.go:155-251 | in every run of the system n failures of a container in a row take the sum of the first n-1 backoffs, if and only if no upgrade of it is started by hand, none by another container's request, and no poll acts on stats older than inFlightTimeout |
| Slowdown.RunIsSlow | internal/dashboard/poller.go:155-251 | within those limits a send separates any two failures, from every state of the invariant |
| Slowdown.StepOwes | internal/dashboard/poller.go:162-251 | every step keeps a container's running or unaccounted upgrade announced by the stats or covered by its claim, with its send still unspent |
| Slowdown.ByHandIsFast | internal/dashboard/poller.go:168-178 | a run where upgrades started by hand fail at once |
| Slowdown.StaleIsFast | internal/dashboard/poller.go:245-249 | a run on old stats where a claim runs out before its job's failure is published |
| Slowdown.RenamedIsFast | internal/dashboard/poller.go:196-212 | a run where requests for another container upgrade this one |
| Protocol.OneAutoJobAtATime | internal/dashboard/poller.go:139-251 | in every state reachable by refreshes, polls, finishes, manual jobs, agent restarts and time, at most one running job was started by an auto-update |
| Protocol.SafeExactlyWithinTimeout | internal/dashboard/poller.go:43-52 | that holds of all runs if and only if the bound on a job's length is at most inFlightTimeout |
| Protocol.SafeAsConfigured | internal/agent/jobs.go:16-19 | the configured job timeout, with two minutes for a rollback, is within it |
| Protocol.PollKeepsInv | internal/dashboard/poller.go:139-222 | a poll on a stale snapshot keeps every running auto-update job answered for by the claim |
| Protocol.BusyWhileAutoRuns | internal/dashboard/poller.go:226-251 | while such a job runs, agentBusy says busy and keeps the claim, whatever the snapshot's age |
| Interleaving.AlwaysOrderlyExactly | internal/dashboard/poller.go:155-251 | in all interleavings every POST in progress is covered by its own run's claim, no two runs post at once, claims and releases alternate, and no container is posted twice within autoCooldown, if and only if snapshots show no early finish and POSTs end within inFlightTimeout |
| Interleaving.FromTheStart | internal/dashboard/poller.go:155-251 | the same under the HTTP client's own limit |
| Interleaving.EveryInterleavingIsOrderly | internal/dashboard/poller.go:155-251 | the same from every state that satisfies the invariant |
| Interleaving.CoveredExactlyWhenOrderly | internal/dashboard/poller.go:226-251 | one given run on arbitrary snapshots covers its POSTs all the way if and only if none of its entering steps sees an early finish |
| Interleaving.EnteringKeepsCoverExactly | internal/dashboard/poller.go:226-251 | an entering run takes a posting run's claim away if and only if its snapshot shows the claimed container finished; the timeout alone never does |
| Interleaving.EarlyFinishDropsAnotherClaim | internal/dashboard/poller.go:196-212 | without the first hypothesis one run's release can drop another run's claim |
| Interleaving.LatePostLosesItsClaim | internal/dashboard/poller.go:245-249 | without the second a POST can outlive its claim |
| Upgrade.UpgradeCLI | internal/agent/upgrade.go:80-187 | for every pattern of failing calls one of four outcomes: untouched, replaced under the old name, rolled back to the very same daemon state, or incomplete with the old container still there; at every moment the old container or the finished replacement exists and no other container changes; success if all calls work, never incomplete with a single fault |
| Upgrade.Swap | internal/agent/upgrade.go:169-186 | the old container is removed only once the new one is connected and, if needed, started |
| Upgrade.Rollback | internal/agent/upgrade.go:131-153 | undoing a partial recreation restores the exact prior state or reports that it could not, with the old container kept |
| Upgrade.FindImages | internal/agent/upgrade.go:80-106 | each reason not to touch the container, and that old defaults are best effort |
| Upgrade.ReplacementKeepsUserSettings | internal/agent/upgrade.go:114-124 | the replacement's configuration is what the user's own settings give on the new image |
| Upgrade.ReplacementKeepsNetworks | internal/agent/upgrade.go:264-299 | its networks are the old ones without the short-ID alias, exactly if the primary network was among them |
| Upgrade.ReplacementKeepsEndpoints | internal/agent/upgrade.go:281-291 | on its old networks the user's addresses, links, driver options and priority are as they were, and of the aliases only the first twelve characters of the old ID are gone |
| Upgrade.ReplacementKeepsHost | internal/agent/upgrade.go:120-123 | name, running state, network mode and mounts are the old ones, and the user's binds stay in front |
| Upgrade.UnreadableDefaultsKeepConfig | internal/agent/upgrade.go:90-95 | without the old image's defaults the configuration goes over as it is |
| Rebase.RefreshImageDefaults | internal/agent/upgrade.go:193-230 | the loops over environment and labels strip exactly what equals the old image's defaults, field by field |
| Rebase.RebaseLaw | internal/agent/upgrade.go:189-230 | merge over the old image, refresh, merge over the new one equals merging the user's settings over the new one, when no setting repeats an old default |
| Rebase.RebaseExactly | internal/agent/upgrade.go:189-230 | for any configuration, keys set twice included, the law holds, up to the order of different keys, if and only if the new image repeats what was repeated |
| Rebase.RestatedVariableChanges | internal/agent/upgrade.go:198-206 | a variable pinned to the old default takes the new one |
| Rebase.CommandExactly | internal/agent/upgrade.go:208-213 | the same for entrypoint and command, which shut each other out |
| Rebase.EnvExactly | internal/agent/upgrade.go:198-206 | the same for the environment, key by key |
| Rebase.LabelsExactly | internal/agent/upgrade.go:220-229 | the same for labels |
| Volumes.PreserveAnonymousVolumes | internal/agent/upgrade.go:235-258 | the user's binds are kept as a prefix, followed by the binds of the uncovered named volumes |
| Volumes.AddedBindsExactly | internal/agent/upgrade.go:235-258 | field by field: one added bind, in the order of the mounts, for each named volume at a place nothing takes, of that volume, at that place, read-only exactly if the mount was |
| Volumes.FieldsJoin | internal/agent/upgrade.go:239-241 | splitting at ':' loses nothing and leaves no separator |
| Volumes.AddedTakeFreeDestinations | internal/agent/upgrade.go:235-258 | added binds take free destinations, each once, and every named volume's destination ends up covered |
| Volumes.PreservingIsIdempotent | internal/agent/upgrade.go:235-258 | feeding the result back as binds adds nothing |
| Networks.SplitNetworks | internal/agent/upgrade.go:264-299 | the split over the map, its primary network at creation and the others to connect |
| Networks.SplitExactly | internal/agent/upgrade.go:264-299 | from the mode alone, which networks come at creation and which later; on each the user's settings are kept field by field |
| Networks.EndpointsKept | internal/agent/upgrade.go:281-291 | the same of the networks the recreated container ends up on |
| Networks.ShortIdIsDropped | internal/agent/upgrade.go:287-291 | exactly the old short-ID alias disappears |
| Networks.SameNetworksExactly | internal/agent/upgrade.go:264-299 | the recreated container is on exactly the old networks if and only if the primary one was among them, and on it besides otherwise |
| Networks.MovedContainerRejoins | internal/agent/upgrade.go:264-299 | a container moved off its mode's network is put back on it |
| Alerts.TurnInv | internal/dashboard/notifier.go:118-236 | one turn keeps the pruned window equal to the recent part of the full history, and says a crash loop, a single alert or nothing exactly as the full history calls for; so the cooldown's skip is never taken |
| Alerts.TurnExactly | internal/dashboard/notifier.go:138-236 | the whole effect of a turn, read off sightings, report and full history: which reports are crashes and of which kind, that suppression ends exactly when the container was steady for recoveryDuration, and what is said |
| Alerts.TimerExactly | internal/dashboard/notifier.go:145-157 | the stability timer has run exactly if every sighting over recoveryDuration was steady |
| Alerts.WindowStep | internal/dashboard/notifier.go:204-213 | two crashes in the pruned window if and only if two crashes of the full history lie within loopWindow |
| Alerts.LiftedOnlyWhenSteady | internal/dashboard/notifier.go:138-159 | when suppression is lifted, every sighting over at least recoveryDuration was running with an unchanged restart count |
| Alerts.KindsSpaced | internal/dashboard/notifier.go:145-166 | alerts of a kind are recoveryDuration apart, single ones loopWindow apart without a suppression between |
| Alerts.AlertsBounded | internal/dashboard/notifier.go:204-236 | at most 3 * (T / 10 min + 1) alerts of a container in any span T |
| Notifier.PruneInPlace | internal/dashboard/notifier.go:205-212 | compacting the slice onto itself leaves exactly the recent times, in order |
| Notifier.CrashNotifier.ExpectStop | internal/dashboard/notifier.go:84-94 | forgets exactly the announcements that ran out and records the new one |
| Notifier.CrashNotifier.Decide | internal/dashboard/notifier.go:118-236 | the branches on a record compute the state machine's turn |
| Notifier.CrashNotifier.Check | internal/dashboard/notifier.go:118-236 | a call is the turns of its containers in order; records mirror the histories, and what was sent is the sent part of each history |
| Notifier.IntendedExactly | internal/dashboard/notifier.go:84-116 | over any run: 143 is always an intended stop, 137 exactly within two minutes of its announcement for that container, nothing else is |
| Notifier.NextReportExactly | internal/dashboard/notifier.go:118-236 | after any run, the effect of the next report of a container, in terms of the calls so far |
| Notifier.SentExactly | internal/dashboard/notifier.go:159-165 | without a URL or on a muted host nothing is sent, otherwise all that happened is |
| Notifier.EveryRunIsQuiet | internal/dashboard/notifier.go:118-236 | the spacing, alternation and counting guarantees over every run of a new notifier, for every container |
| Notifier.SuppressedExactlyWithPair | internal/dashboard/notifier.go:204-229 | at every moment of every run: suppressed if and only if the crashes since the last recovery contain two within loopWindow |
| Cidr.IncrementedValue | internal/dashboard/scanner.go:167-174 | incrementing with carry is plus one modulo 256^n |
| Cidr.IncrementIP | internal/dashboard/scanner.go:167-174 | the in-place loop is that increment |
| Cidr.AgreeByValue | internal/dashboard/scanner.go:147 | agreeing on the mask's bits is being in the same block of numbers |
| Cidr.ContainsInBlock | internal/dashboard/scanner.go:147 | membership in the network is membership in its block |
| Cidr.BroadcastAddr | internal/dashboard/scanner.go:176-182 | fills in the host bits, byte by byte |
| Cidr.BlockEnds | internal/dashboard/scanner.go:176-182 | a network address starts its block and the broadcast address ends it |
| Cidr.HostsInCIDR | internal/dashboard/scanner.go:136-159 | ends even at the top of the address space; refuses exactly more than 16 host bits; otherwise max(0, 2^h - 2) addresses, the k-th of value network + 1 + k |
| Cidr.HostsExactly | internal/dashboard/scanner.go:136-159 | they are exactly the network's addresses but its own and the broadcast address |
| AgentTable.State.AddAgent | internal/dashboard/state.go:42-66 | the whole new table, keys equal to IDs, addresses distinct, and a file that lists it |
| AgentTable.State.UpdateFromPoll | internal/dashboard/state.go:69-90 | the whole new table, re-keyed when the ID changed, keys equal to IDs and addresses distinct |
| AgentTable.State.MarkOffline | internal/dashboard/state.go:93-103 | the whole new table; only that agent's status changes |
| AgentRuns.AddedExactly | internal/dashboard/state.go:46-63 | a known address is relabelled only if a label is given; a new one is filed under its address |
| AgentRuns.PolledExactly | internal/dashboard/state.go:78-89 | the polled record field by field, and that only a record under the reported ID can go |
| AgentRuns.OfflineExactly | internal/dashboard/state.go:101-102 | the offline record field by field |
| AgentTable.State.RemoveAgent | internal/dashboard/state.go:106-116 | removes exactly that ID, reports whether it was there, and saves only then |
| AgentTable.State.constructor | internal/dashboard/state.go:31-38 | loading builds the table of the file's addresses |
| AgentTable.State.FindByAddr | internal/dashboard/state.go:174-181 | whatever the map's order, finds the one record of that address, or none exactly if there is none |
| AgentTable.State.Get | internal/dashboard/state.go:160-171 | a copy of that record |
| AgentTable.State.All | internal/dashboard/state.go:119-143 | the records, each once, strictly ascending by host name or address, then address |
| AgentTable.SortedIsUnique | internal/dashboard/state.go:128-142 | there is only one such list |
| AgentRuns.OrderExactly | internal/dashboard/state.go:128-141 | smaller host names first, an address standing in for a missing one, then smaller addresses |
| AgentTable.State.Entries | internal/dashboard/state.go:184-198 | the saved list has one entry for each agent, with its address and label |
| AgentRuns.RefinesUnlessCollision | internal/dashboard/state.go:42-116 | each operation acts as on a table keyed by address if and only if it does not file its agent under a key another one holds |
| AgentRuns.RunRefines | internal/dashboard/state.go:42-116 | over any run with proper IDs the table is the address-keyed one, no record lost |
| AgentRuns.TwinsLoseARecord | internal/dashboard/state.go:69-90 | two agents that report one ID leave one record |
| AgentRuns.SavedListStaysCurrent | internal/dashboard/state.go:69-103 | an operation that does not save leaves the saved list current if and only if it does not collide |
| AgentRuns.AlwaysCurrentExactly | internal/dashboard/state.go:42-116 | over any run, saving as the source does, the saved list is current at every moment if and only if no poll collides |
| AgentRuns.SavedListIsAlwaysCurrent | internal/dashboard/state.go:42-116 | with proper IDs it always equals the current address and label pairs |
| AgentRuns.RestartKeepsAgents | internal/dashboard/state.go:184-227 | loading what was saved brings back every addressed agent with its label |
| LoginLimiter.Limiter.Allowed | internal/dashboard/ratelimit.go:36-50 | the answer and the whole new table |
| LoginLimiter.Limiter.RecordFailure | internal/dashboard/ratelimit.go:52-68 | the whole new table after a failure, with every reading of the clock |
| LoginLimiter.Limiter.Reap | internal/dashboard/ratelimit.go:76-91 | in any order, exactly the entries that ran out are deleted |
| LoginLimiter.FailuresBounded | internal/dashboard/handlers.go:161-189 | in any run of attempts and reaper ticks an address without a success gets at most eight failures into any half-open span of failureWindow |
| LoginLimiter.FiveFailuresLock | internal/dashboard/ratelimit.go:52-68 | up to four failures within fifteen minutes leave an address free, the fifth locks it for fifteen minutes, to the nanosecond |
| LoginLimiter.LateFailureRestarts | internal/dashboard/ratelimit.go:60-63 | a failure after the window begins a new one |
| LoginLimiter.EightFailures | internal/dashboard/ratelimit.go:52-68 | a run that reaches eight |
| LoginReaper.InvisibleExactly | internal/dashboard/ratelimit.go:36-91 | over all histories of attempts, overlapping or not: no tick of the reaper can be told by attempts that follow, if and only if no failure is recorded on a lock that has run out |
| LoginReaper.ReaperIsInvisible | internal/dashboard/ratelimit.go:76-91 | without such a failure, taking all ticks out of a run changes no answer |
| LoginReaper.InvisibleToAtomicAttempts | internal/dashboard/handlers.go:161-189 | attempts that do not overlap never record one |
| LoginReaper.StaleFailureTells | internal/dashboard/ratelimit.go:52-68 | after one, at most four attempts and a question show whether the reaper ran |
| LoginLimiter.OverlappingAttempts | internal/dashboard/ratelimit.go:52-68 | with overlapping attempts it can: a failure recorded after its lock ran out |
| UpdateCache.Checker.CheckUpdatesOnce | internal/agent/updates.go:54-99 | the loop is the pass, with entries dropped by other goroutines at any of its lock boundaries |
| UpdateCache.PassExactly | internal/agent/updates.go:59-90 | what a pass does to an image, from its container's turn: asked about exactly if not cached or five minutes old, and then cached with false for an untagged image, the registry's answer, or the value before if the check failed |
| UpdateCache.AnswersAreTheRegistrys | internal/agent/updates.go:79-84 | over all runs every stored answer is what the registry said of a tagged image in use |
| UpdateCache.Checker.SweepUnused | internal/agent/updates.go:92-98 | exactly the images out of use are forgotten |
| UpdateCache.CachedIffInUse | internal/agent/updates.go:54-99 | after a pass only images in use are cached, and all of them but those dropped meanwhile |
| UpdateCache.AskedOncePerPass | internal/agent/updates.go:59-82 | a pass asks about an image at most once, and only if it is in use |
| UpdateCache.AskedAgain | internal/agent/updates.go:66-72 | over all runs: asked again only updateCheckInterval after its last result, unless dropped or out of use meanwhile |
| UpdateCache.AvailableExactly | internal/agent/updates.go:22-26 | over all runs, with entries dropped at any moment: an update is reported if and only if a check found one, none settled otherwise since, and every loss since fell into a check that failed |
| UpdateCache.AvailableIsLastAnswer | internal/agent/updates.go:22-26 | from a moment when the image is not cached and no check of it is under way, until its entry is lost: the status is the last successful check's, false without one or for a bare image ID |
| UpdateCache.DroppedValueRevived | internal/agent/updates.go:66-89 | a run in which a dropped value comes back |
| UpdateCache.PassKeepsInv | internal/agent/updates.go:54-99 | after any pass the cache is what the history of checks and drops says |
| ImageRef.ParseIsCanonical | internal/agent/registry.go:65-109 | every parsed reference, written out in full, parses to itself |
| ImageRef.SplitRepoIdempotent | internal/agent/registry.go:90-109 | so does every repository |
| ImageRef.OfficialNames | internal/agent/registry.go:90-109 | the ways to spell an official Docker Hub repository are one repository |
| ImageRef.HostedRepo | internal/agent/registry.go:92-94 | a first part that looks like a host is the registry |
| ImageRef.UserRepo | internal/agent/registry.go:95-101 | any other first part is a user of Docker Hub |
| ImageRef.UntaggedIsLatest | internal/agent/registry.go:77-83 | a reference whose last part has no tag means latest, whatever ports come before |
| ImageRef.TaggedParse | internal/agent/registry.go:77-80 | repository and tag are read apart |
| ImageRef.DigestIgnored | internal/agent/registry.go:66-69 | a digest plays no part |
| ImageRef.ExtractLocalDigest | internal/agent/registry.go:274-291 | the digest of the first entry for the repository, else the first that is not empty, else none |
| ImageRef.EntryExactly | internal/agent/registry.go:277-287 | an entry's repository and digest are what stands before and after its '@' |
| AuthChallenge.ParseAuthChallenge | internal/agent/registry.go:231-268 | the loop ends, stays in range and computes the parse |
| AuthChallenge.ItemsRead | internal/agent/registry.go:241-266 | parameters written with any separators, quoted or not, are read back; commas inside quotes belong to the value |
| AuthChallenge.UnclosedQuoteRead | internal/agent/registry.go:250-253 | a quote that is never closed takes the rest |
| AuthChallenge.ToLowerExactly | internal/agent/registry.go:246 | keys lose their upper case and nothing else |
| AuthChallenge.TrimSpaceExactly | internal/agent/registry.go:265 | spaces go from both ends, all of them, and nothing else |
| AuthChallenge.ChallengeRoundTrip | internal/agent/registry.go:231-268 | parsing inverts scheme k1="v1",k2="v2",... for lower-case tokens and trimmed values without quotes, the last of equal keys winning |

## Left out

- HTTP handlers, templates, JSON, TLS and certificates, the AI clients and the delivery of notifications: input and output.
- Sessions, passwords, origin checks, `clientIP` and trusted proxies: no state of their own that a run could break.
- `internal/agent/compose.go`: shells out; for the protocol a compose upgrade is a job that succeeds or fails.
- Measuring hosts and containers, log tailing, formatting and the user interface: floating point or single branches.
- The scan's worker goroutines and the tickers: only the address enumeration has something to prove.
- `net.ParseCIDR` and address rendering: networks and hosts are byte arrays, the network masked as ParseCIDR leaves it. `IPNet.Contains` compares an IPv4-mapped network by its last four bytes only; with at most 16 host bits that is the same test.
- Fetching digests and tokens: the registry's answer is an input.
- Host and version fields of the published stats, and the loops that call refresh: inputs.
- The progress stream of an image pull: a pull works or fails.
- Upgrade.UpgradeCLI: containers that Docker removes on stop, and networks named by their ID, are not modelled; the time stamp of the backup name is an input.
- Poller.UpdatePoller.RunAutoUpdates: runs are followed for one agent, so that two agents whose `address::name` keys collide are not modelled.
- AuthChallenge.ParseAuthChallenge: lower-casing covers ASCII letters only, all that tokens consist of.
- AgentTable.State.Entries: the file write is taken to succeed; the source ignores its error.
- AgentTable.State.All: sorting is by insertion where the source calls the library; any correct sort gives the same list.
- LoginLimiter.FailuresBounded: takes the clock readings of one failure as one, as `LoginReaper` does.
