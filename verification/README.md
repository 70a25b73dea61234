# Ptolemy: a verified model of the polling, scheduling and storage core

Ptolemy polls network devices.  A scheduler decides when a device is due, a supervisor decides which driver may
talk to it, a worker runs the driver and shapes what it collects, and storage and analysis daemons file the
result.  This project states in Dafny what the core of these programs does and proves what they promise.

| modules | part of the system |
|---|---|
| `ParentTable`, `EntityForest`, `BuildTree` | the entity tree made from a table of parent pointers: a pure account of the placement and its repair passes, the tree of nested dicts in the heap, and the algorithm that links the two |
| `EntityTable`, `Inventory` (module `EntityInventory`) | the cull of useless entities, on the table and on tree and table together |
| `Schedule`, `Scheduler`, `ScheduleRuns`, `SchedulerRing` | the heap of due entries, the parser's operations on it, whole runs, and the ring that decides which host publishes |
| `DriverPaths`, `PollSupervisor`, `DriverTrial`, `PollRuns`, `PollFailures` | driver paths, the supervisor's decisions and log handling, the worker's trial of drivers, runs over a forward clock, and where they go wrong |
| `BulkWalk` | the GETBULK walk over a sorted MIB |
| `Gatherer`, `GathererRows` | the destructive renaming of columns, against an evaluator that destroys nothing, and the turn to rows |
| `Texts`, `Feeder`, `CarbonKeys`, `CarbonFanOut` | extraction of contexts, carbon keys, and the spread of metrics over carbon workers and back |
| `PostgresRows`, `PostgresCache`, `PostgresSaving`, `PostgresStorer`, `PostgresUpserts` | the table, what is fetched from it, the effect of saving items, the daemon, and what a message comes to |
| `AlertAnalysis`, `AlertEpisodes` | the state of watched contexts, the three kinds of alerts, and the rows of alert episodes |
| `CapacityHistory`, `VlanBitmap` | scores from a pruned history of samples, and VLAN bitmaps |

Code that changes state is modelled by classes and methods with loops; each is proved against a function or a
relation on values, and the promises over whole runs are lemmas about those.  Dictionaries are iterated in any
order: a loop picks any key that is left.  Verify with `dafny verify dfyconfig.toml`.

Where code and description differ, the model follows the code:

- `regraft` of a node directly under the root keeps the node in the tree and loses all rows below it to the tree,
  while the table has its children moved up.  `Regraft` says exactly when no other row is lost.  The cull never
  removes such a node.
- A row below removed entities of which only some pass their position on ends with the position of any of several,
  depending on the order (`CullKeepsNearestAncestors`, `OrderDecidesPosition`).
- The default of two repair passes can leave rows out of the tree (`TwoPassesCanLoseARow`): exactly when some stray
  branch has rank two or more (`WholeExactlyWhenShallow`).
- A reload can leave a test with two heap entries or none (`UncleanReloads`); exactly when is in
  `ReloadKeepsExactlyOnce`.
- A host that calls within the dead time can be taken for dead, as calls inside the period of an update do nothing
  (`CallsWithinDeadTimeAreNotEnough`); exactly when a heartbeat is recent is in `FreshExactlyWhen`.
- A refused request can use up the next probe (`ThrottledRequestSpendsTheProbe`, `ProbeIsSpent`).
- A job can go out without a driver, exactly in the three cases of `DriverlessExactlyWhen`, each with a run.
- After a trial that ends in a time-out or a name error the old driver stays remembered although none worked, or one
  is learned of which nothing came (`JobTeaches`, `TimeOutKeepsDriver`, `BrokenDriverIsLearned`).
- A driver name that holds its own path prefix is not stripped to itself (`StripUndoesGetPath`, `NameIsLost`).
- A column wanted by two groups is gone for the second one: the processing then fails (`SharedColumnFails`,
  `FailsExactlyWhen`) or loses an optional field (`SeenMakes`); exactly when is in `RefinesExactlyWhen`.
- A field that keeps the name of its column is lost when a later definition of the group wants that column too
  (`FieldLostExactlyWhen`, `OwnNameIsLost`).
- Asked for by another spelling than its bare name, a column is walked for one answer only (`Walk`).
- At the end of the MIB the bulk walk yields the mark of the end as a value (`WalkIsExactlyWhen`, `OnlyRowIsMarked`).
- A bitmap with a long run of ones decodes to nothing (`UndecodedMapsHoldVlans`).
- Two ports that differ in a slash for a dot only have one carbon key (`PortKeys`).
- A port text with leading zeros or a plus sign never gets a message to its worker (`RoutingReachesWorker`,
  `LeadingZeroMissesWorker`).
- Two items with one new context become two rows (`NewPortListedTwice`, `StillOneRowEachExactlyWhen`); an item that
  goes back to the stored data is ignored (`PortListedBackAgain`, `RowEndsWithLastOther`); an item of a second group
  about one device is lost when its context has a row (`OneSlotIsLost`, `ItemsDroppedExactlyWhen`).  All of it
  together is `MessageUpdatesTheMapExactlyWhen`.
- An alert episode comes apart when an episode of a context that extends its own begins during it
  (`LargerContextSplitsEpisode`); exactly when is in `TableHoldsEpisodesExactlyWhen`.

## Model

| member | source | states |
|---|---|---|
| `ParentTable.PlaceShape` | lib/ptolemy/poller/driver.py:416-426 | placing one row keeps every placed and stray row linked to its table parent, and every placed top directly under the root |
| `ParentTable.FirstLoopShape` | lib/ptolemy/poller/driver.py:411-426 | conservation: after the first loop every index of the table is in exactly one of topology and stray branches, and every edge is a table parent pointer |
| `ParentTable.FirstLoopSound` | lib/ptolemy/poller/driver.py:416-426 | what the first loop puts in the topology reaches the root along parent pointers |
| `ParentTable.PassDescends` | lib/ptolemy/poller/driver.py:428-438 | a repair pass only moves whole branches, from the strays to the topology |
| `ParentTable.PassesDescend` | lib/ptolemy/poller/driver.py:428-438 | the same over any number of passes |
| `ParentTable.PassAdoptsReady` | lib/ptolemy/poller/driver.py:429-438 | a branch whose parent is in the topology when a pass starts is in the topology when it ends, in whatever order the branches are visited |
| `ParentTable.RankBelowMonotone` | lib/ptolemy/poller/driver.py:428-438 | a branch of rank below k is of rank below any larger bound |
| `ParentTable.PassesPlaceByRank` | lib/ptolemy/poller/driver.py:411-442 | bounded completeness: after n passes every stray branch of rank below n is in the topology |
| `ParentTable.PassSound` | lib/ptolemy/poller/driver.py:428-438 | a pass adds only rows that reach the root |
| `ParentTable.PassesSound` | lib/ptolemy/poller/driver.py:411-442 | nothing on a parent cycle that avoids the root, and nothing else that does not reach the root, ever enters the topology |
| `ParentTable.ReachingBranchHasRank` | lib/ptolemy/poller/driver.py:428-438 | the top of a stray branch whose rows reach the root has a rank |
| `ParentTable.RankBounded` | lib/ptolemy/poller/driver.py:428-438 | a rank is never larger than the number of stray branches, so that many passes are enough |
| `ParentTable.EnoughPassesComplete` | lib/ptolemy/poller/driver.py:411-442 | with as many passes as there are stray branches, or once nothing is stray, the topology is exactly the set of rows whose parent chain reaches the root |
| `ParentTable.ReachingRowIsPlaced` | lib/ptolemy/poller/driver.py:411-442 | with as many passes as stray branches, or once nothing is stray, a row that reaches the root is in the topology |
| `ParentTable.SafeExactlyWhenShallow` | lib/ptolemy/poller/driver.py:428-442 | the exact condition: whatever order the passes visit the strays in, a stray branch is in the topology after n passes if and only if its rank is below n |
| `ParentTable.TwoPassesCanLoseARow` | lib/ptolemy/poller/driver.py:411 | the default of two passes is not enough: a table where a row that reaches the root is left among the strays |
| `EntityForest.Topology.WalkTo` | lib/ptolemy/poller/driver.py:326-340 | returns the dict of a label exactly when the label occurs at or below the starting dict, in any key order |
| `EntityForest.Topology.Insert` | lib/ptolemy/poller/driver.py:342-352 | indexing an auto-creating tree adds one empty dict under the given place, and leaves every other link alone |
| `EntityForest.Topology.Attach` | lib/ptolemy/poller/driver.py:342-353 | hangs the node under its parent if the parent occurs, at the top if that is forced, and else refuses without a change |
| `BuildTree.GraftLaid` | lib/ptolemy/poller/driver.py:436 | a branch hung under a node of another tree leaves a tree of dicts that says what the two said |
| `BuildTree.PruneLaid` | lib/ptolemy/poller/driver.py:437 | the tree the branch is taken from stays a tree of dicts |
| `BuildTree.Hang` | lib/ptolemy/poller/driver.py:436 | the moved branch keeps its shape and gets its new parent |
| `BuildTree.Drop` | lib/ptolemy/poller/driver.py:437 | the key of the moved branch, and with it the whole branch, leaves the strays |
| `BuildTree.MoveBranch` | lib/ptolemy/poller/driver.py:432-437 | both together: nothing is lost, gained or shared between the two trees |
| `BuildTree.PlaceRow` | lib/ptolemy/poller/driver.py:416-426 | one row of the first loop on the two trees of dicts |
| `BuildTree.FirstLoopOver` | lib/ptolemy/poller/driver.py:414-426 | the first loop leaves two disjoint trees that agree with the table |
| `BuildTree.AdoptTop` | lib/ptolemy/poller/driver.py:430-437 | one stray branch in a repair pass |
| `BuildTree.RepairPass` | lib/ptolemy/poller/driver.py:429-438 | one repair pass over the stray tops in any order is one pass of the abstract algorithm |
| `BuildTree.BuildTree` | lib/ptolemy/poller/driver.py:411-442 | the trees of dicts are the ones the abstract passes describe: edges are parent pointers, tops are under the root, and with all passes done the rows in the topology are those of the abstract result |
| `BuildTree.NothingStray` | lib/ptolemy/poller/driver.py:428-442 | nothing is stray as soon as the tree of strays has no key at the top |
| `EntityTable.SourceStays` | lib/ptolemy/poller/driver.py:373-390 | a row keeps its source when one more entity goes, unless that passes its position on to it |
| `EntityTable.SourceMovesDown` | lib/ptolemy/poller/driver.py:373-390 | and then it has the source of that entity |
| `EntityTable.OnlySource` | lib/ptolemy/poller/driver.py:373-390 | when all entities in between pass their position on there is one source, the topmost of them |
| `EntityTable.OneMoreGone` | lib/ptolemy/poller/driver.py:355-390 | taking one more entity away changes the nearest kept ancestor of the others only as far as that entity was it |
| `EntityTable.SplicedCutsDown` | lib/ptolemy/poller/driver.py:373-390 | one removal on the table: every survivor is under its nearest surviving ancestor |
| `EntityTable.CullKeepsNearestAncestors` | lib/ptolemy/poller/driver.py:535-559 | after the cull, whatever is removed and in whatever order, each surviving entity has its nearest surviving ancestor of the original table as parent, nothing else is lost or gained, and its position is its own or that of a removed ancestor that passes it on and to which none is passed on, whatever the order; the topmost one if all pass theirs on |
| `EntityTable.CulledExactlyWhen` | lib/ptolemy/poller/driver.py:540-559 | which entities go, told from their fields in the table: a visited one is gone if and only if it is not at the root, its serial is null and it is no fan; one with a serial, without the field, a fan or one at the root stays |
| `EntityTable.SplicedAt` | lib/ptolemy/poller/driver.py:355-390 | one removal row by row: the entity goes, its children get its parent and, if it passes that on, its position, and nothing else changes |
| `EntityTable.OrderDecidesPosition` | lib/ptolemy/poller/driver.py:373-390 | a concrete table where the order of two removals decides the position of a row |
| `EntityTable.SplicedStillReaches` | lib/ptolemy/poller/driver.py:355-390 | every survivor of one removal still reaches the root |
| `EntityTable.SpliceKeepsAncestors` | lib/ptolemy/poller/driver.py:355-390 | among survivors, one is an ancestor of another after a removal exactly when it was before |
| `EntityTable.CulledStillReaches` | lib/ptolemy/poller/driver.py:535-559 | after the cull every entity still reaches the root |
| `EntityInventory.Promote` | lib/ptolemy/poller/driver.py:381-383 | a child moves from the removed node to its parent with all that is below it |
| `EntityInventory.Remove` | lib/ptolemy/poller/driver.py:388-390 | the emptied node leaves the tree |
| `EntityInventory.Discard` | lib/ptolemy/poller/driver.py:373-386 | without a parent in the tree the child is dropped from it |
| `EntityInventory.Inventory.MoveChild` | lib/ptolemy/poller/driver.py:373-386 | one child in regraft, in table and tree |
| `EntityInventory.Inventory.Regraft` | lib/ptolemy/poller/driver.py:355-390 | whatever rows the tree lacks: the table changes as specified; the tree is spliced as the table is exactly when the node was not directly under the root; there, everything inside its dict leaves the tree, which is still as the table says; so the other rows all stay in the tree exactly when the node was not directly under the root or had no child |
| `EntityInventory.Inventory.RegraftUnder` | lib/ptolemy/poller/driver.py:355-390 | the case with a parent in the tree: tree and table are both spliced |
| `EntityInventory.Inventory.MoveChildren` | lib/ptolemy/poller/driver.py:372-386 | all children of a node move, in any order |
| `EntityInventory.Inventory.DropChildren` | lib/ptolemy/poller/driver.py:372-386 | without a parent in the tree exactly the labels below the node leave the tree, and its children are spliced in the table only |
| `EntityInventory.Inventory.CullRow` | lib/ptolemy/poller/driver.py:540-559 | one row: it leaves if and only if its serial is null, it is no fan and not at the root; the rows in the tree are spliced as the table alone would be |
| `EntityInventory.Inventory.Cull` | lib/ptolemy/poller/driver.py:535-559 | the cull loop removes just the visited entities that have a null serial, are no fan and are not directly under the root, also when rows were left out of the tree; what is in the tree is as the table says at the end |
| `EntityInventory.InStepFromBuild` | lib/ptolemy/poller/driver.py:411-442 | what the built tree holds is as the table says |
| `EntityInventory.ShallowStraysArePlaced` | lib/ptolemy/poller/driver.py:411-442 | when no stray branch has rank two or more, the tree built with the default passes holds every row |
| `EntityInventory.WholeExactlyWhenShallow` | lib/ptolemy/poller/driver.py:411-442 | the exact condition: the tree built with the default passes holds every row, in whatever order strays are visited, if and only if no stray branch has rank two or more |
| `EntityInventory.Normalise` | lib/ptolemy/poller/driver.py:535-559 | for any table, from build_tree through the cull: the table loses exactly the rows that have a null serial, are no fan and are not directly under the root; what is left in the tree are its other rows, each under its nearest surviving ancestor, in step with the table; no row is left out when no stray branch is deep |
| `Scheduler.DueHeap.Pop` | lib/ptolemy/scheduler/scheduler.py:42-44 | an entry of least due time leaves the heap; an empty heap has none |
| `Scheduler.Parser.Delay` | lib/ptolemy/scheduler/scheduler.py:95-105 | a delay within the spread around the period, none for period zero |
| `Scheduler.Parser.AddTest` | lib/ptolemy/scheduler/scheduler.py:115-140 | at most one entry is added, for an active test only, due within the drawn range of its setting: the host's own value, else that of the stanza it refers to |
| `Scheduler.Parser.Peek` | lib/ptolemy/scheduler/scheduler.py:145-149 | the earliest entry is told and is in the heap again |
| `Scheduler.Parser.Next` | lib/ptolemy/scheduler/scheduler.py:151-159 | the earliest entry is returned and its test is put back, later by a fresh delay of the host's own period or else that of its stanza, if it is still listed and on |
| `Scheduler.Parser.AddHost` | lib/ptolemy/scheduler/scheduler.py:309-310 | the specs of one host are added once each |
| `Scheduler.Parser.AddAll` | lib/ptolemy/scheduler/scheduler.py:306-310 | every active test that was not known gets exactly one entry |
| `Scheduler.Parser.InitSchedule` | lib/ptolemy/scheduler/scheduler.py:301-311 | one entry more for every active test of the configuration, so that on an empty heap every active test has exactly one |
| `Scheduler.Parser.ResetSchedule` | lib/ptolemy/scheduler/scheduler.py:313-337 | a reload adds entries for the newly listed tests only and leaves the rest of the heap |
| `Scheduler.PeekKeepsEntries` | lib/ptolemy/scheduler/scheduler.py:145-149 | popping an entry and putting it back keeps the entries of the heap as a multiset |
| `Scheduler.Parser.Serve` | lib/ptolemy/scheduler/managers.py:298-303 | one turn of the event loop: an entry is dispatched only if it is due, and the turn is a peek and then a dispatch of the abstract run |
| `ScheduleRuns.CountAfter` | lib/ptolemy/scheduler/scheduler.py:145-159 | how one peek, dispatch or reload changes the number of entries of a test |
| `ScheduleRuns.ServingKeepsExactlyOnce` | lib/ptolemy/scheduler/scheduler.py:145-159 | peeks and dispatches keep one entry for every active test and none twice |
| `ScheduleRuns.ReloadKeepsExactlyOnce` | lib/ptolemy/scheduler/scheduler.py:313-337 | a reload keeps that exactly when the reload is clean: no removed test comes back while its old entry waits, and none is switched on from period zero |
| `ScheduleRuns.UncleanReloads` | lib/ptolemy/scheduler/scheduler.py:313-337 | concrete reloads of both unclean kinds, after which a test has two entries or none |
| `ScheduleRuns.ExactlyOnceForEver` | lib/ptolemy/scheduler/scheduler.py:115-159 | exactly one entry for every active test through any run of peeks, dispatches and clean reloads |
| `ScheduleRuns.RemovedRunsOut` | lib/ptolemy/scheduler/scheduler.py:151-159 | dispatches of a removed test and its remaining entries add up to the entries it had |
| `ScheduleRuns.RemovedAtMostOnceMore` | lib/ptolemy/scheduler/scheduler.py:337 | a removed test is returned at most once more |
| `ScheduleRuns.DueByShrinks` | lib/ptolemy/scheduler/scheduler.py:151-159 | once a time has passed, a dispatch removes one of the entries due by then and nothing adds one |
| `ScheduleRuns.DueEntryIsNotOvertaken` | lib/ptolemy/scheduler/scheduler.py:142-159 | fairness: while a due entry waits, at most heap size minus one others are dispatched, reloads or not |
| `ScheduleRuns.DispatchesAreSpaced` | lib/ptolemy/scheduler/scheduler.py:95-159 | no dispatch is early, and two dispatches in a row of a test that has one entry throughout are at least period minus spread apart, also if it is not listed for a while |
| `Schedule.SettingThatCounts` | lib/ptolemy/scheduler/scheduler.py:161-202 | a test is listed exactly when the host lists it itself or the stanza does that it refers to; the host's own value wins, and the stanza gives the rest |
| `Schedule.DispatchRequeues` | lib/ptolemy/scheduler/scheduler.py:151-202 | a dispatched test is put back, exactly once, by the host's own period, else by that of its stanza, and not at all if neither lists it or the period is zero |
| `Schedule.StartsWithinThreePeriods` | lib/ptolemy/scheduler/scheduler.py:301-310 | at start-up a test is put in up to three periods ahead, by the host's own setting if it has one |
| `Schedule.DrawnExactlyWhen` | lib/ptolemy/scheduler/scheduler.py:95-140 | a due time can be drawn exactly when it is a period ahead, give or take the spread, and at start-up anywhere in the next three |
| `Schedule.OwnValueWins` | lib/ptolemy/scheduler/scheduler.py:151-202 | a concrete host polled every minute though its stanza says every quarter of an hour |
| `SchedulerRing.Keeper.UpdateRing` | lib/ptolemy/scheduler/managers.py:208-238 | nothing within the period; else a fresh heartbeat, recent hosts in the ring and silent ones out; and a host and the shared map that reflect a world of all hosts reflect that world after the call |
| `SchedulerRing.UpdateKeepsSane` | lib/ptolemy/scheduler/managers.py:208-238 | a heartbeat is no older than the last update of its host, rings hold only hosts with a heartbeat, and a host that has updated is in its own ring |
| `SchedulerRing.OneCall` | lib/ptolemy/scheduler/managers.py:208-238 | one call told in seconds: within ten of the last update nothing happens; else the heartbeat is set, and of the hosts with a heartbeat those at most twenty old are in the ring |
| `SchedulerRing.HeartbeatsAreNotAhead` | lib/ptolemy/scheduler/managers.py:213-218 | over any run no heartbeat is ahead of the clock |
| `SchedulerRing.OwnRingHasSelf` | lib/ptolemy/scheduler/managers.py:223-234 | over any run a host is always in its own ring |
| `SchedulerRing.SilenceKeepsHeartbeat` | lib/ptolemy/scheduler/managers.py:216-238 | while a host makes no call its heartbeat stays as it is |
| `SchedulerRing.SilentHostDropsOut` | lib/ptolemy/scheduler/managers.py:226-233 | a host silent for more than the dead time is in no ring updated after that |
| `SchedulerRing.LiveHostIsFresh` | lib/ptolemy/scheduler/managers.py:226-230 | a host that calls often enough always has a recent heartbeat |
| `SchedulerRing.BeatenSinceExactlyWhen` | lib/ptolemy/scheduler/managers.py:208-218 | over any run a heartbeat is exactly as recent as the last update of its host, or as it was at the start |
| `SchedulerRing.FreshExactlyWhen` | lib/ptolemy/scheduler/managers.py:208-230 | so it is recent exactly when its host has updated within the dead time, or just before the run |
| `SchedulerRing.CallsWithinDeadTimeAreNotEnough` | lib/ptolemy/scheduler/managers.py:208-233 | a concrete run in which a host calls every 15 seconds at least and is taken for dead |
| `SchedulerRing.SettledUpdateSeesLive` | lib/ptolemy/scheduler/managers.py:226-233 | once membership is settled, that is live hosts keep their heartbeats within the dead time and others do not, the ring of an update is the set of live hosts |
| `SchedulerRing.RingStaysLive` | lib/ptolemy/scheduler/managers.py:208-238 | and stays so |
| `SchedulerRing.ExactlyOnePublisher` | lib/ptolemy/scheduler/managers.py:303-307 | once all live hosts have updated after the last change, each item has exactly one publishing owner |
| `DriverPaths.RemoveAllShrinks` | lib/ptolemy/poller/managers.py:132-133 | replacing a text by nothing gives a text no longer than before, equal just when nothing was there to replace |
| `DriverPaths.StripUndoesGetPath` | lib/ptolemy/poller/managers.py:129-133 | stripping undoes making the path exactly when the directory prefix does not occur in the driver name |
| `DriverPaths.NameIsLost` | lib/ptolemy/poller/managers.py:129-133 | a concrete driver name that stripping does not give back |
| `DriverPaths.PathsAreDistinct` | lib/ptolemy/poller/managers.py:129-130 | different drivers have different paths |
| `PollSupervisor.Supervisor.ValidateTask` | lib/ptolemy/poller/managers.py:151-287 | the decision and the new cache entry for every request, accepted or refused, including the state that refused requests commit; past the checks a test that has been going on for too long counts as not started |
| `PollSupervisor.Supervisor.ProcessLog` | lib/ptolemy/poller/managers.py:290-374 | what a log message of any kind changes in the cache entry of its test, and that it changes no other; also when it raises |
| `PollSupervisor.Supervisor.NoteSuccess` | lib/ptolemy/poller/managers.py:350-360 | the driver named last in a success report is remembered; a line that is no success ends the loop with an error |
| `PollSupervisor.Supervisor.NoteTrouble` | lib/ptolemy/poller/managers.py:334-348 | which lines forget the driver, and which note a failure or a time-out |
| `PollSupervisor.AcceptedExactlyWhen` | lib/ptolemy/poller/managers.py:195-271 | a request is sent on if and only if the test is not backing off, both throttle times are over, and a driver is forced, remembered until the next probe, or listed for the spec |
| `PollSupervisor.ForcedDriverWins` | lib/ptolemy/poller/managers.py:248-285 | a driver that is forced by name goes out although another one is remembered; a forced one without a name leaves the remembered one, or the text None |
| `PollSupervisor.UnforcedDrivers` | lib/ptolemy/poller/managers.py:253-285 | a job that is not forced goes out with the remembered driver until the next probe, and with the paths of the whole list, in its order, when a probe is due or no driver is known |
| `PollSupervisor.RequestIsRecorded` | lib/ptolemy/poller/managers.py:232-251 | what a request leaves in the cache: its time unless it is throttled, and a new next probe exactly when that was not set or has passed |
| `PollSupervisor.TroubleIsNoted` | lib/ptolemy/poller/managers.py:328-348 | what the lines of an end, a warning or an error leave: the driver is forgotten exactly for the line of no suitable driver, an error is always a failure, a warning ends nothing |
| `PollSupervisor.ProgressIsNoted` | lib/ptolemy/poller/managers.py:316-357 | of reported successes the last is remembered, and nothing else but the start of a test is noted |
| `PollRuns.RecvdSince` | lib/ptolemy/poller/managers.py:188-251 | the received time never falls behind an accepted request |
| `PollRuns.AcceptedJobsAreApart` | lib/ptolemy/poller/managers.py:209-211 | two accepted jobs of one test are at least the received throttle time apart |
| `PollRuns.CompleteSince` | lib/ptolemy/poller/managers.py:328-332 | the completion time never falls behind a completion |
| `PollRuns.NothingAcceptedAfterCompletion` | lib/ptolemy/poller/managers.py:203-206 | no job is accepted within the complete throttle time of the last completion |
| `PollRuns.ProbeNeverFarAhead` | lib/ptolemy/poller/managers.py:238-243 | over any run the next probe is at most period times one plus spread ahead |
| `PollRuns.ProbeIsAhead` | lib/ptolemy/poller/managers.py:238-243 | after every request the next probe is not in the past |
| `PollRuns.BackoffLastsUntilProbe` | lib/ptolemy/poller/managers.py:195-271 | over any run: a completed test without a driver that is not forced gets no job before its next probe, however many requests come, and every job it gets before anything is learned carries the full priority list |
| `PollRuns.BackoffEndsInProbe` | lib/ptolemy/poller/managers.py:195-271 | a request for such a test at or after that time goes out with the full priority list if it is past both throttles |
| `PollRuns.ThrottledRequestSpendsTheProbe` | lib/ptolemy/poller/managers.py:232-251 | a throttled request that comes then moves the probe on without a probe |
| `PollRuns.ProbeOnlyMovesForward` | lib/ptolemy/poller/managers.py:238-243 | the next probe never moves back |
| `PollRuns.KnownDriverProbesAreRare` | lib/ptolemy/poller/managers.py:238-271 | with a known driver, probes are at least period times one minus spread apart |
| `PollRuns.OffersAreKnown` | lib/ptolemy/poller/managers.py:264-285 | every offered path is the path of a driver in the priority list, of a forced one or of the remembered one |
| `PollRuns.LearnedIsKnown` | lib/ptolemy/poller/managers.py:334-357 | reports about offered drivers teach only known names |
| `PollRuns.OnlyOffersAreReported` | lib/ptolemy/poller/managers.py:328-357 | what a worker reports after trying the drivers of a job was offered to it |
| `PollRuns.OnlyKnownDrivers` | lib/ptolemy/poller/managers.py:253-285 | over any run with such workers the remembered driver is always a name from the priority list or a forced driver, and every path offered is the path of one |
| `PollFailures.DriverlessExactlyWhen` | lib/ptolemy/poller/managers.py:245-287 | over any run, a job that goes out carries no driver exactly in three cases: the file of forced drivers has a blank for the test and nothing better is remembered, the list to probe with names no driver, or a blank is remembered |
| `PollFailures.DriverlessWithCleanNames` | lib/ptolemy/poller/managers.py:245-287 | with clean names exactly these remain: a forced driver that is called None, a list without a driver, and a blank that was on the list; when no configured name is blank, exactly the empty list remains |
| `PollFailures.ForcedWithoutName` | lib/ptolemy/poller/managers.py:248-283 | a concrete run in which a forced driver without a name goes out |
| `PollFailures.EmptyList` | lib/ptolemy/poller/managers.py:262-269 | a concrete run in which an empty list goes out |
| `PollFailures.EmptyNameRemembered` | lib/ptolemy/poller/managers.py:276-357 | a concrete run in which the empty name is learned and goes out |
| `PollFailures.ProbeIsSpent` | lib/ptolemy/poller/managers.py:203-243 | a concrete run in which a throttled request uses the probe up and the backoff goes on for another period |
| `DriverTrial.Poll` | lib/ptolemy/poller/workers.py:499-578 | the drivers are tried in order; how the trial ends and which success is reported are settled by the first attempt that does not go on |
| `DriverTrial.EndsExactlyWhen` | lib/ptolemy/poller/workers.py:523-578 | how a trial ends, told from its attempts |
| `DriverTrial.JobTeaches` | lib/ptolemy/poller/workers.py:523-578 | for every ending: the known driver is forgotten exactly when no driver was suitable; else the driver that was reported last is remembered, and the old one if none was |
| `DriverTrial.ProbeTeachesFirstWorkingDriver` | lib/ptolemy/poller/workers.py:523-578 | after a probe that delivers the remembered driver is the first offered one that did not fail, and none when the trial found none suitable |
| `DriverTrial.BrokenOffProbeTeaches` | lib/ptolemy/poller/workers.py:523-578 | after a probe that ends in a time-out or a name error the last driver is remembered that fetched but came to nothing, and the old one if there was none |
| `DriverTrial.TimeOutKeepsDriver` | lib/ptolemy/poller/workers.py:564-568 | one driver that times out: the old one stays remembered |
| `DriverTrial.EndIsRecorded` | lib/ptolemy/poller/workers.py:523-578 | what the record of a test says after a job: it has ended, every error is a failure, and only a time-out is noted as one |
| `DriverTrial.BrokenDriverIsLearned` | lib/ptolemy/poller/workers.py:523-568 | a concrete trial after which a driver is remembered of which nothing came |
| `BulkWalk.ColumnIsExact` | lib/ptolemy/poller/agent.py:895-957 | the column lists the instances under the base, each once, in increasing order |
| `BulkWalk.ColumnSpelledOut` | lib/ptolemy/poller/agent.py:925-957 | an instance is found exactly when its name is the base, then a rest that is not empty, and its value is the text, or none for the empty text |
| `BulkWalk.LessExactlyWhen` | lib/ptolemy/poller/agent.py:895-957 | one name is before another when it is its beginning or is smaller where the two first differ |
| `BulkWalk.NothingLeft` | lib/ptolemy/poller/agent.py:929-934 | after a variable past the base that is outside the column, nothing of the column is left |
| `BulkWalk.NextAfterRow` | lib/ptolemy/poller/agent.py:907-915 | the variable after the last one taken is where the next request starts |
| `BulkWalk.Agent.GetBulk` | lib/ptolemy/poller/agent.py:911-926 | an agent conforming to section 4.2.3 of RFC 3416 answers with successors in order, and once there are no more with marks of the end under the last name; at least one variable |
| `BulkWalk.TakeAnswer` | lib/ptolemy/poller/agent.py:925-950 | the loop over one answer takes its variables in order |
| `BulkWalk.RowsTaken` | lib/ptolemy/poller/agent.py:925-950 | the rows of an answer extend what was taken by just their part of the column, and the stop for a repeated index does not fire |
| `BulkWalk.MarksTaken` | lib/ptolemy/poller/agent.py:925-956 | marks of the end are taken for values, and the stop fires as soon as their index has come before |
| `BulkWalk.Ask` | lib/ptolemy/poller/agent.py:907-956 | one request: the walk goes on with fewer requests left, or has yielded what it should |
| `BulkWalk.Walk` | lib/ptolemy/poller/agent.py:895-957 | for any MIB and any answer sizes the walk ends; asked for by the bare name of the column it yields its rows, once each, in lexicographic order, and at the end of the MIB marks of the end after them; asked for by any other spelling just those of the first answer |
| `BulkWalk.WalkIsExactlyWhen` | lib/ptolemy/poller/agent.py:895-957 | the exact condition: the walk yields exactly the column if and only if another variable follows the column |
| `BulkWalk.OnlyRowIsMarked` | lib/ptolemy/poller/agent.py:895-957 | a concrete MIB where the walk yields a value that is none |
| `CapacityHistory.FirstBetweenIsLatest` | lib/ptolemy/analyse/capacity.py:127-132 | the first listed sample in an interval is the latest one there |
| `CapacityHistory.HeadIsLatest` | lib/ptolemy/analyse/capacity.py:127-128 | the first listed sample is the latest of all |
| `CapacityHistory.NoteSample` | lib/ptolemy/analyse/capacity.py:129-132 | one sample in the loop over the ranges |
| `CapacityHistory.Analyse` | lib/ptolemy/analyse/capacity.py:109-146 | the scores are the rates between the latest sample and the latest sample of every range |
| `CapacityHistory.Store.SaveData` | lib/ptolemy/analyse/capacity.py:100-107 | a message adds one sample to each direction, or none |
| `CapacityHistory.Store.Prune` | lib/ptolemy/analyse/capacity.py:266-271 | samples up to the horizon leave the named histories, others stay |
| `CapacityHistory.PruneTwice` | lib/ptolemy/analyse/capacity.py:266-271 | pruning at two horizons, in either order, is pruning at the later one |
| `CapacityHistory.PruningMissesOnlyOld` | lib/ptolemy/analyse/capacity.py:266-271 | over any run with a forward clock, the pruned history lacks only samples that were below a horizon |
| `CapacityHistory.OldSamplesDoNotMatter` | lib/ptolemy/analyse/capacity.py:127-143 | samples below the horizon change no score |
| `CapacityHistory.PrunedScoresAreExact` | lib/ptolemy/analyse/capacity.py:100-146 | over any run the scores of the pruned history are those of the full history |
| `CapacityHistory.RateIsShare` | lib/ptolemy/analyse/capacity.py:18-28 | a counter of bytes that grows by a share of capacity times seconds over eight scores that share; it is negative when the counter falls |
| `CapacityHistory.NoRateExactlyWhen` | lib/ptolemy/analyse/capacity.py:18-28 | there is no rate exactly without two samples, without a capacity, or when no time has passed |
| `CapacityHistory.FullForAMinute` | lib/ptolemy/analyse/capacity.py:109-146 | a concrete history: a port that was full between 90 and 30 seconds ago scores one for the last minute and nothing for the longer ranges |
| `CapacityHistory.LeftAfterAnalysis` | lib/ptolemy/analyse/capacity.py:266-271 | an analysis leaves just the samples of the last 62 minutes, unless their time is below zero |
| `VlanBitmap.BitOfDigit` | lib/ptolemy/poller/driver.py:185-188 | bit n of the bytes is bit n mod 4 of hexadecimal digit n div 4 |
| `VlanBitmap.Decode` | lib/ptolemy/poller/driver.py:161-188 | the VLANs of a decodable map are exactly its set bits but for the ignored four, in increasing order |
| `VlanBitmap.ByteIsItsBits` | lib/ptolemy/poller/driver.py:185-188 | a byte is the sum of its bits, the first of which counts most |
| `VlanBitmap.BitOfByte` | lib/ptolemy/poller/driver.py:183-188 | the bits of a map are those of its bytes one after the other |
| `VlanBitmap.DecodableExactlyWhen` | lib/ptolemy/poller/driver.py:177 | a map is decoded exactly when it has 64 bytes or no twelve bytes in a row, also when shifted by half a byte, are all ones |
| `VlanBitmap.UndecodedMapsHoldVlans` | lib/ptolemy/poller/driver.py:177 | every map with a run of 24 f digits, but for 64-byte ones, holds VLANs although it decodes to none |
| `VlanBitmap.MergeTrunks` | lib/ptolemy/poller/driver.py:195-215 | every port has the four lists one after the other, each shifted by its offset |
| `VlanBitmap.PartIsExact` | lib/ptolemy/poller/driver.py:205-212 | one field contributes the set bits of its map, shifted |
| `VlanBitmap.MergedListIsExact` | lib/ptolemy/poller/driver.py:195-215 | the merged list is strictly increasing, and n is in it exactly when bit n mod 1024 of map n div 1024 is set and not ignored |
| `VlanBitmap.SecondMapIsShifted` | lib/ptolemy/poller/driver.py:202-214 | a concrete port whose second map has the numbers 5 and 7, which are the VLANs 1029 and 1031 |
| `Gatherer.Remap` | lib/ptolemy/poller/driver.py:1644-1687 | one definition takes its column over under its own name and applies its maps; it fails exactly when a required column has no value |
| `Gatherer.CountRefs` | lib/ptolemy/poller/workers.py:334-343 | how often every column is wanted |
| `Gatherer.Snapshots` | lib/ptolemy/poller/workers.py:347-351 | copies of the columns wanted more than once; fails exactly when such a column is missing |
| `Gatherer.Restore` | lib/ptolemy/poller/workers.py:368-372 | the copied column is back as it was |
| `Gatherer.RefsStay` | lib/ptolemy/poller/workers.py:354-372 | no definition touches a column before a field of that name is made |
| `Gatherer.Apply` | lib/ptolemy/poller/workers.py:358-372 | one definition: its column is used up, and put back if it is still wanted |
| `Gatherer.ProcessGroup` | lib/ptolemy/poller/workers.py:334-372 | one group, whatever its names are: each definition renames its column away, and a column that is wanted again is put back; it fails exactly when a definition does or a shared column is missing |
| `Gatherer.PipedIsEvaluated` | lib/ptolemy/poller/workers.py:334-372 | refinement: when a field is named like a column only if it is made of that and nobody wants it later, a group makes what the simple evaluator makes, less the columns it uses up, and fails exactly when that does |
| `Gatherer.KeptName` | lib/ptolemy/poller/workers.py:358-372 | what is under the name of a field that keeps the name of its column, after any number of definitions |
| `Gatherer.FieldLostExactlyWhen` | lib/ptolemy/poller/workers.py:358-372 | the exact condition: such a field is lost if and only if a later definition of the group wants its column too |
| `Gatherer.NextGetsMixture` | lib/ptolemy/poller/workers.py:358-372 | and that definition gets the collected entries over what the maps of the field have made |
| `Gatherer.OwnNameIsLost` | lib/ptolemy/poller/workers.py:358-372 | a concrete group in which the field is lost |
| `Gatherer.SharedMeansTwo` | lib/ptolemy/poller/workers.py:334-351 | a column counts as shared exactly when two definitions refer to it |
| `Gatherer.PutBackAt` | lib/ptolemy/poller/workers.py:368-372 | entry by entry: a copy that is put back has its entries in the column again, over what that holds by then, and no other column changes |
| `Gatherer.RenamedAt` | lib/ptolemy/poller/driver.py:853-876 | field by field: the column of a definition is gone and its name holds what the maps make of it; other columns stay |
| `GathererRows.AddColumn` | lib/ptolemy/poller/workers.py:395-405 | one column more in the rows |
| `GathererRows.RemoveField` | lib/ptolemy/poller/workers.py:413-422 | a field to be cleaned leaves every row, and rows that are empty then leave too |
| `GathererRows.RowsOf` | lib/ptolemy/poller/workers.py:388-425 | the rows are the transpose of the columns of the group without the cleaned ones and without empty rows; every cell holds just the value of its column, or None where that is the text None |
| `GathererRows.EvaluateWithout` | lib/ptolemy/poller/workers.py:330-372 | the simple evaluator does not miss columns of other groups |
| `GathererRows.SequentialIsSeen` | lib/ptolemy/poller/workers.py:330-372 | refinement: the groups one after the other make what all definitions make of the columns still unused when their turn comes, and leave none of the columns they used |
| `GathererRows.SeenIsSimple` | lib/ptolemy/poller/workers.py:330-372 | when no column is wanted by two groups, that is what they make of the untouched data |
| `GathererRows.SequentialIsSimple` | lib/ptolemy/poller/workers.py:330-372 | so that then the groups one after the other make what all definitions make of the untouched data |
| `GathererRows.FailsExactlyWhen` | lib/ptolemy/poller/workers.py:334-372 | the processing fails if and only if some definition stumbles: it is required and its column is used up by an earlier group or has no value, or its group shares the column and that is used up or missing |
| `GathererRows.SeenMakes` | lib/ptolemy/poller/workers.py:354-372 | a field is made exactly when its column was collected and no earlier group has used it up; so an optional definition whose column is used up silently loses its field |
| `GathererRows.RefinesExactlyWhen` | lib/ptolemy/poller/workers.py:330-372 | the exact condition for the refinement when all definitions together succeed and every field is made once: no definition wants a collected column that an earlier group has used up, and none shares with its group a column that is missing |
| `GathererRows.SharedColumnFails` | lib/ptolemy/poller/workers.py:330-372 | a concrete driver with a column that two groups require: all definitions together succeed, the processing fails |
| `GathererRows.ProcessGroups` | lib/ptolemy/poller/workers.py:330-372 | the renaming half, group by group, whatever the names are |
| `GathererRows.ChainedIsSequential` | lib/ptolemy/poller/workers.py:330-372 | refinement for all groups: when names and columns are kept apart they make what the evaluator makes of what they have left each other |
| `GathererRows.CellOfGroup` | lib/ptolemy/poller/workers.py:395-422 | cell by cell: there exactly when a definition makes the field, none cleans it and the column has the index; the value is that of the column, or None for the text None |
| `GathererRows.UsedExactlyWhen` | lib/ptolemy/poller/workers.py:330-372 | a column is used up at the turn of a group exactly when an earlier group wants it |
| `GathererRows.StoredCell` | lib/ptolemy/poller/workers.py:323-430 | from collected column to stored cell: when names are kept apart and the processing succeeds, a field has a cell for an index exactly when its maps make an entry there of the collected column, no earlier group wants that and the field is not cleaned; it holds just that entry, or None for the text None |
| `GathererRows.Process` | lib/ptolemy/poller/workers.py:323-430 | the whole of it, for any groups: the rows of every group are the transpose of what the groups leave of the table, each cell with just the value of its column or None for the text None; when names and columns are kept apart, it fails exactly when some definition stumbles, and else they are the transpose of what the definitions make of the columns they see |
| `Feeder.MoveKeys` | lib/ptolemy/storage/feeders/__init__.py:205-215 | the values under the key names move from the item to its context |
| `Feeder.TwoStepsAreOne` | lib/ptolemy/storage/feeders/__init__.py:205-319 | moving the context keys and then the key names comes to moving all key names at once |
| `Feeder.ExtractMeta` | lib/ptolemy/storage/feeders/__init__.py:110-203 | the common context, the key names and the group of a message; fails exactly for a malformed iterative group |
| `Feeder.GroupByContext` | lib/ptolemy/storage/feeders/__init__.py:229-236 | every context has exactly its items, in order |
| `Feeder.Spread` | lib/ptolemy/storage/feeders/__init__.py:229-319 | the data come out as a reordering of what is to be stored: every item once, with its own context |
| `Feeder.ProcessTask` | lib/ptolemy/storage/feeders/__init__.py:258-325 | the same for a whole message |
| `Feeder.PlainDatum` | lib/ptolemy/storage/feeders/__init__.py:120-215 | key by key, what one item of an ordinary group comes to: the context has the keys of the message's context and the key names, with the item's value, else the context's, else the top level's; the data are the rest of the item |
| `Feeder.SubGroupReads` | lib/ptolemy/storage/feeders/__init__.py:166-176 | the group `g@k=v` is read as g, k and v |
| `Feeder.IterativeValue` | lib/ptolemy/storage/feeders/__init__.py:170-173 | the value is stored as the number it is, and as it is exactly when it is no number or in canonical form |
| `Feeder.IterativeDatum` | lib/ptolemy/storage/feeders/__init__.py:163-215 | key by key, the same for a group `g@k=v`: the group is g, and k is one more key with the value v unless the item has its own |
| `Feeder.RefusedExactlyWhen` | lib/ptolemy/storage/feeders/__init__.py:166-183 | a group with an `@` is refused exactly when the rest is not one key, one `=` and one value |
| `CarbonKeys.BeforeIsTotal` | lib/ptolemy/storage/feeders/carbon.py:34 | any two different keys are ordered one way |
| `CarbonKeys.SortedNames` | lib/ptolemy/storage/feeders/carbon.py:34 | the keys in increasing order, each once, so that the carbon key does not depend on the order of a dictionary |
| `CarbonKeys.BeforeExactlyWhen` | lib/ptolemy/storage/feeders/carbon.py:34 | one text is before another when it is its beginning or is smaller where the two first differ |
| `CarbonKeys.KeySplits` | lib/ptolemy/storage/feeders/carbon.py:27-40 | split at its dots a key gives the first word, the labels of the device backwards, spec and group, and the other values of the context in the order of their names, when none of these holds a separator |
| `CarbonKeys.SameKeyExactlyWhen` | lib/ptolemy/storage/feeders/carbon.py:27-40 | then two contexts with the same names have the same key if and only if they are the same |
| `CarbonKeys.PortKeys` | lib/ptolemy/storage/feeders/carbon.py:27-40 | the key of a port in full; two ports of a device have the same key if and only if they differ in nothing but slashes for dots |
| `CarbonKeys.GivenKeyIsUsed` | lib/ptolemy/storage/feeders/carbon.py:28-29 | a key that comes with the data is used as it is |
| `CarbonFanOut.RoutingReachesWorker` | lib/ptolemy/storage/feeders/carbon.py:126-177 | adding the port offset and taking it away again gives the configured text exactly when its port is in canonical form |
| `CarbonFanOut.LeadingZeroMissesWorker` | lib/ptolemy/storage/feeders/carbon.py:126-177 | a concrete instance text whose messages reach no worker |
| `CarbonFanOut.FullKeySplits` | lib/ptolemy/storage/feeders/carbon.py:149-151 | the full key of a metric is split into ptolemy, the labels of its device backwards, spec, group, the other values of its context and the metric; a given key just gets the metric added |
| `CarbonFanOut.SameFullKeyExactlyWhen` | lib/ptolemy/storage/feeders/carbon.py:149-151 | so metrics of contexts with the same names share a full key if and only if they are the same metric of the same context, when no value holds a separator |
| `CarbonFanOut.MetricReachesOwner` | lib/ptolemy/storage/feeders/carbon.py:130-180 | every metric is in the message whose routing key is the configured text of the instance the ring names for its full key, with its value and the key values of its context and nothing else, when ports are in canonical form |
| `CarbonFanOut.MultiCarbonSupervisor.AddInstance` | lib/ptolemy/storage/feeders/carbon.py:123-128 | a new instance with its shifted port; refused exactly for a known node or a port that is no number |
| `CarbonFanOut.MultiCarbonSupervisor.Setup` | lib/ptolemy/storage/feeders/carbon.py:117-121 | succeeds exactly when all texts are instances of different nodes |
| `CarbonFanOut.AddMetric` | lib/ptolemy/storage/feeders/carbon.py:148-167 | one metric goes to the shard of the owner of its full key, which FullKeySplits spells out |
| `CarbonFanOut.AddItem` | lib/ptolemy/storage/feeders/carbon.py:148-167 | all metrics of one item |
| `CarbonFanOut.Gather` | lib/ptolemy/storage/feeders/carbon.py:146-167 | all metrics of a message, each exactly once, or an error for a metric without key or instance |
| `CarbonFanOut.Address` | lib/ptolemy/storage/feeders/carbon.py:170-180 | every shard gets the routing key of a configured instance |
| `CarbonFanOut.MultiCarbonSupervisor.ProcessTask` | lib/ptolemy/storage/feeders/carbon.py:135-180 | every context, metric and value of the message lands in exactly one shard, that of the ring owner of its full key; it fails exactly when some metric can have no key or no owner |
| `CarbonFanOut.AddressOne` | lib/ptolemy/storage/feeders/carbon.py:175-177 | the message for one shard and its key |
| `CarbonFanOut.OneShardOnly` | lib/ptolemy/storage/feeders/carbon.py:148-167 | no metric is in two shards or twice in one |
| `CarbonFanOut.WorkerRebuilds` | lib/ptolemy/storage/feeders/carbon.py:74-84 | the worker's own extraction has the same context and metric again, under the key that led to this shard |
| `Texts.SplitUndoesJoin` | lib/ptolemy/storage/feeders/carbon.py:119-176 | splitting undoes joining when the separator is in no part |
| `Texts.NumberReadsBack` | lib/ptolemy/storage/feeders/carbon.py:126 | a number reads back from its text |
| `Texts.CanonicalWritesBack` | lib/ptolemy/storage/feeders/carbon.py:126 | a text is written back from its number exactly when it is in canonical form |
| `PostgresRows.Different` | lib/ptolemy/storage/feeders/postgres.py:304-332 | in any key order: no difference exactly for equal maps, a minor one exactly for new keys without conflict, a major one otherwise |
| `PostgresRows.OneRowEachExactlyWhen` | lib/ptolemy/storage/feeders/postgres.py:608-689 | on a table with one row for a context there is one row for a context afterwards if and only if no new context has two items |
| `PostgresRows.RowAfter` | lib/ptolemy/storage/feeders/postgres.py:608-651 | the only row of a context afterwards: the last data that differ from what it had, with a new creation time, or its own data stamped; and unchanged when its items come too late |
| `PostgresRows.DroppedExactlyWhen` | lib/ptolemy/storage/feeders/postgres.py:478-679 | items for an old row are dropped exactly when they come too late |
| `PostgresRows.MapUpdatedExactlyWhen` | lib/ptolemy/storage/feeders/postgres.py:433-689 | the map from contexts to data is updated by the items one after the other if and only if every context is kept: a new one occurs once, an old one does not go back to its old data and is not late with other data |
| `PostgresRows.RowsAreStamped` | lib/ptolemy/storage/feeders/postgres.py:349-357 | rows carry the time of the message, keep their creation time exactly when their data are the same, and rows of other contexts are unchanged |
| `PostgresRows.LastDataIsLast` | lib/ptolemy/storage/feeders/postgres.py:433-439 | putting data into a map one after the other leaves the last of every context |
| `PostgresCache.Select` | lib/ptolemy/storage/feeders/postgres.py:276-297 | the query returns every matching row once, or the one created last |
| `PostgresCache.CacheIsExact` | lib/ptolemy/storage/feeders/postgres.py:473-484 | after the query the cache holds exactly the table's rows of every context asked for |
| `PostgresCache.CachedAppends` | lib/ptolemy/storage/feeders/postgres.py:478-484 | a later query appends to what is cached |
| `PostgresCache.QueryRecalls` | lib/ptolemy/storage/feeders/postgres.py:478-484 | a context asked for once is cached with its rows once, a context asked for again with its rows more than once, and others are not touched |
| `PostgresSaving.SavedUpserts` | lib/ptolemy/storage/feeders/postgres.py:557-692 | saving one more item, with its rows fetched once or twice, moves the finished table on by that item |
| `PostgresSaving.SavedAllUpsert` | lib/ptolemy/storage/feeders/postgres.py:557-692 | the same for any number of items |
| `PostgresSaving.BulkStamps` | lib/ptolemy/storage/feeders/postgres.py:496-510 | stamping in bulk changes nothing about the finished table |
| `PostgresSaving.RowsUntouched` | lib/ptolemy/storage/feeders/postgres.py:496-516 | until an item of a context is saved, the table has its rows as before the message |
| `PostgresStorer.Storer.PreBulkProcess` | lib/ptolemy/storage/feeders/postgres.py:439-494 | what is fetched, by device or by the whole context, and when nothing is |
| `PostgresStorer.Storer.Save` | lib/ptolemy/storage/feeders/postgres.py:557-694 | the effect of saving one item for no, one or several cached rows |
| `PostgresStorer.Storer.SaveAll` | lib/ptolemy/storage/feeders/postgres.py:557-694 | the items of a group are saved one after the other |
| `PostgresStorer.Storer.PostBulkProcess` | lib/ptolemy/storage/feeders/postgres.py:496-510 | rows to stamp are stamped in bulk |
| `PostgresStorer.Storer.ProcessGroup` | lib/ptolemy/storage/feeders/postgres.py:439-510 | one group of items: fetched, saved, stamped |
| `PostgresStorer.Storer.Store` | lib/ptolemy/storage/feeders/postgres.py:359-694 | one message from beginning to end: for any plain message with a common context, what becomes of the rows of every context; a just-inserted item adds a row, and one for the most recent row touches that; without a common context nothing changes |
| `PostgresStorer.MatchesIsAsking` | lib/ptolemy/storage/feeders/postgres.py:462-484 | the query of a group finds the rows of just the groups that would ask for the same |
| `PostgresStorer.DoneData` | lib/ptolemy/storage/feeders/postgres.py:557-694 | the items of a context come in the order of the message, whatever the order of the groups |
| `PostgresStorer.GroupDone` | lib/ptolemy/storage/feeders/postgres.py:439-510 | one more group: the invariant of the loop over groups |
| `PostgresUpserts.NoneLateExactlyWhen` | lib/ptolemy/storage/feeders/postgres.py:462-484 | no item comes too late, in whatever order groups are processed, exactly when different groups ask for different rows |
| `PostgresUpserts.OneGroupInTime` | lib/ptolemy/storage/feeders/postgres.py:462-484 | of the groups that ask for the same rows all but the first one processed are late |
| `PostgresUpserts.StillOneRowEachExactlyWhen` | lib/ptolemy/storage/feeders/postgres.py:557-694 | after storing a plain message there is one row for a context if and only if no context without a row occurs in it twice |
| `PostgresUpserts.RowEndsWithLastOther` | lib/ptolemy/storage/feeders/postgres.py:608-679 | when groups ask for different rows, a context with a row ends with its last item that differs from the stored data, or the stored data if none does |
| `PostgresUpserts.ItemsDroppedExactlyWhen` | lib/ptolemy/storage/feeders/postgres.py:478-679 | items of an old row are dropped exactly when an earlier group asked for the same rows as theirs |
| `PostgresUpserts.MessageUpdatesTheMapExactlyWhen` | lib/ptolemy/storage/feeders/postgres.py:433-694 | exactly when storing a plain message updates the table as a map from contexts to data |
| `PostgresUpserts.PlainMessageUpdatesTheMap` | lib/ptolemy/storage/feeders/postgres.py:433-694 | in particular it does when groups ask for different rows and no context occurs twice |
| `PostgresUpserts.OldestIsLeft` | lib/ptolemy/storage/feeders/postgres.py:667-686 | of several rows of a context that has items in the message exactly one is left, one that was created first, and it is unchanged |
| `PostgresUpserts.MessageStampsRows` | lib/ptolemy/storage/feeders/postgres.py:349-357 | which rows carry the time of the message, which keep their creation time, and which are unchanged |
| `PostgresUpserts.NewPortListedTwice` | lib/ptolemy/storage/feeders/postgres.py:681-689 | a concrete message that leaves two rows for one context |
| `PostgresUpserts.PortListedBackAgain` | lib/ptolemy/storage/feeders/postgres.py:608-651 | a concrete message that ends with other data than its last item has |
| `PostgresUpserts.OneOfTwoIsDropped` | lib/ptolemy/storage/feeders/postgres.py:478-679 | of two old rows in two groups that ask for the same rows one gets its items and the other does not |
| `PostgresUpserts.OneSlotIsLost` | lib/ptolemy/storage/feeders/postgres.py:478-679 | a concrete message of which one item is lost |
| `AlertAnalysis.AnalyseWorker.ProcessWhen` | lib/ptolemy/analyse/generic.py:153-231 | the new state is kept, and a change is told exactly while the state holds or when it ceases; the worker and its alerts move on as one step of the abstract run |
| `AlertAnalysis.RunSpells` | lib/ptolemy/analyse/generic.py:119-231 | over any run the alerts of a context spell (new continual* end)*, broken off only where its key is dropped |
| `AlertAnalysis.RunAlerts` | lib/ptolemy/analyse/generic.py:226-231 | only changes that must be told are told |
| `AlertAnalysis.WatchedExactlyWhen` | lib/ptolemy/analyse/generic.py:119-151 | over any run a context is watched if and only if some message had a value for its field that matches, and since then none had an empty one or one that does not match, and its key did not expire |
| `AlertAnalysis.MatchKeepsWhatIsKnown` | lib/ptolemy/analyse/generic.py:138-145 | a message that matches makes an unknown context watched and leaves a known one as it was |
| `AlertAnalysis.NoAlertUntilMatch` | lib/ptolemy/analyse/generic.py:138-149 | from a message that does not match on the context is not watched, and no alert about it is sent until a message that matches |
| `AlertAnalysis.AlertSentExactlyWhen` | lib/ptolemy/analyse/generic.py:153-231 | a watched context with a value that can be compared gets an alert exactly while the condition holds or when it has just ceased to; it tells value and state and those before |
| `AlertAnalysis.NothingElseAlerts` | lib/ptolemy/analyse/generic.py:119-231 | no other event sends an alert |
| `AlertAnalysis.SpareTellsNothing` | lib/ptolemy/analyse/generic.py:138-151 | a concrete run: a port that is no uplink any more goes down and nothing is told |
| `AlertAnalysis.UplinkSpells` | lib/ptolemy/analyse/generic.py:153-231 | a concrete run: an uplink goes down, stays down, comes up and stays up, with a new, a continual and an end alert and no more |
| `AlertAnalysis.MatchCondition` | lib/ptolemy/alert/commands.py:114-128 | true exactly when all conditions hold |
| `AlertAnalysis.ExactlyOneKind` | etc/ptolemy/alert.yaml:79-101 | every change that is told matches exactly one of the new, continual and end conditions |
| `AlertEpisodes.ProcessTask` | lib/ptolemy/alert/commands.py:197-230 | exactly one message is stored for a change, that of its kind |
| `AlertEpisodes.StoredAlert` | lib/ptolemy/storage/feeders/postgres.py:456-694 | storing a new alert inserts a row, storing another one touches the most recent row of its context |
| `AlertEpisodes.NewAlertInserts` | lib/ptolemy/storage/feeders/postgres.py:299-302 | a new alert begins the row of its episode |
| `AlertEpisodes.LaterAlertUpdates` | lib/ptolemy/storage/feeders/postgres.py:646-681 | a continual or end alert that is not overtaken updates the row of its episode and no other |
| `AlertEpisodes.OvertakenAlertInserts` | lib/ptolemy/storage/feeders/postgres.py:465-689 | one that is overtaken inserts a row instead |
| `AlertEpisodes.IntactExactlyWhen` | lib/ptolemy/storage/feeders/postgres.py:465-689 | after a continual or end alert the table holds one row for each episode if and only if no episode of another context that extends its own began since its own did |
| `AlertEpisodes.TableHoldsEpisodesExactlyWhen` | lib/ptolemy/storage/feeders/postgres.py:456-694 | over a run the table holds one row for each episode, created at its new alert and last updated at its latest one, and nothing else, if and only if no alert so far was overtaken |
| `AlertEpisodes.IncomparableContextsAreSafe` | lib/ptolemy/storage/feeders/postgres.py:465-484 | none is when no context of the directive extends another, as when all have the same keys |
| `AlertEpisodes.LargerContextSplitsEpisode` | lib/ptolemy/storage/feeders/postgres.py:465-484 | a concrete run of events in which an alert is overtaken |
| `AlertEpisodes.UplinkRow` | lib/ptolemy/storage/feeders/postgres.py:456-694 | a concrete episode of three alerts leaves one row, created at the first and updated at the last, with what was told last |
| `AlertEpisodes.ChangeIsTold` | lib/ptolemy/analyse/generic.py:229-263 | the stored data are the value and the last value, the state and the last state as texts, and the directive |
| `AlertEpisodes.AlertTableOfRun` | lib/ptolemy/analyse/generic.py:119-231 | end to end, from the events of a directive to the rows of its alert table: at every point of the run the table holds just the episodes if and only if no alert was overtaken |

## Left out

- `numerise_keys` and dictionary order: all loops over keys are proved for any order.
- Index texts: parents are labels throughout; that the root "0" is not the index of a row is assumed where it is used.
- `reattach_as` and the transceiver remap, which do not repoint children.
- EntityForest.Topology.Attach: a label is attached once, as build_tree does with the keys of a table; attaching it again would keep its dict.
- EntityInventory.Promote: the child's dict is moved, where `regraft` stores a copy of it; the copy is the only one left afterwards.
- EntityTable.CullKeepsNearestAncestors: a child without the inherited field, which would raise KeyError in a log line, is not modelled, and the patterns on descriptions are a flag of the row.
- The text of a period and the loading of YAML schedules; a delay is drawn anywhere in its range.
- Scheduler.DueHeap.Pop: the heap is a list from which any least entry is taken, so the order among equal due times is open.
- SchedulerRing.ExactlyOnePublisher: the hash ring is any function of members and item, and an update of the shared map is one step.
- PollSupervisor.Supervisor.ValidateTask: password files, the options cache and log lines are left out; the key of a test is the pair of device and spec.
- PollSupervisor.Supervisor.ProcessLog: the locking by the parent class is left out; a job is taken to have no message of its own, as its class is not part of the repository.
- BulkWalk.Walk: enumerations of values, error responses and close matches are left out.
- Gatherer.Remap: maps are functions of their own column; definitions without a reference, iterative groups, post-processing maps and the field-major form are left out.
- Gatherer.PipedIsEvaluated: of groups in which a field is named like a column that a later definition or another group wants, only what `ProcessGroup`, `ProcessGroups` and `FieldLostExactlyWhen` say is stated.
- GathererRows.Process: groups to be ignored are left out; a collected column is not empty, as the collection never makes an empty one.
- CapacityHistory.Analyse: raw values, the six-digit text of a rate, the score boards and capacity alerts are left out.
- Feeder.ExtractMeta: values are the texts that are stored; a missing timestamp or meta field raises before anything else and is left out; a message is copied by who sends it on.
- CarbonFanOut.RoutingReachesWorker: blanks around a port, which `int` accepts, count as no number.
- CarbonFanOut.MultiCarbonSupervisor.ProcessTask: the meta of every shard is its own copy; the sending itself and the carbon protocol are left out.
- PostgresStorer.Storer.Store: archive rows, partitions, indexes, subnets, prefetching for batches of messages, tables that are stamped after a batch, merging of contexts or data, delayed contexts, and SQL errors other than an empty condition are left out; cache keys are the contexts themselves; of messages that are just inserted, or update the most recent row and ignore data, those with a single item are spoken of, and nothing is said of other mixtures of options.
- AlertAnalysis.RunSpells: the text of a redis key is the context itself, which loses nothing only while values have no blanks or quotes; the comparison is any test, as two of its operators do not match their names.
- AlertEpisodes.ProcessTask: the ignore list, the match of stanza contexts, limits, mail and file alerts are left out; the three stanzas of one metric are considered.
- AlertEpisodes.AlertTableOfRun: messages arrive in order, with increasing times, and contexts are not empty and share no key with the fields of the data.
- Transports, caches, databases, SNMP encoding, the web pages, address management, reports and start-up scripts: no logic of their own beyond what is modelled as maps, tables and parameters.
