# Nomploy core: models and proofs

Nomploy is a self-hosted deployment panel on Nomad and Consul. This project models the parts of it where the
difficulty is in the logic rather than in the plumbing, and proves properties of them with Dafny.

`dafny verify dfyconfig.toml` checks everything.

**The load-balancer DNS controller** (`ordering`, `dns`, `reconcile`, `retries`, `cluster`, `leader_safety`, `warrants`,
`convergence`, `takeover`, `stale_leader`, `two_leaders`, `controller`). One process per server competes for a Consul
session lock; the winner probes the members' public addresses and edits the hostname's A records with separate list,
add and delete calls.
`Reconcile` has the two write loops as a step function, `Cluster` puts any number of processes, overlapping ticks,
Consul and the zone into one step system, and `Controller` has the program's own form (a process with its `sessionId`,
a `tick` method, loops that send one write at a time); each of its methods is proved to do what a run of the step
system does, and what it means for the zone is stated without the step functions. Assumptions of this part: code between two awaits is not interrupted; record ids are never reused; records
of the hostname are only created and deleted, never edited, and only by controllers; the list call returns all records
if there are at most 100 and some 100 of them otherwise. A call may fail before or after it took effect, a provider
write may also take effect later, and a process may stop at any moment.

**The panel's own logic**: the tree walk behind expanded entries (`tree_walk`), form values as HCL literals and
generated var-files (`text`, `pack_vars`, `pack_secrets`), the unit converter of a number input (`converter`), the
cached list of trusted origins (`trusted_origins`) and the stored statistics window (`stats_window`). `strings` has the
library functions on texts that several parts use.

**The API service's deployment listing** (`inngest_events`, `deployment_rows`), and **the monitoring agent**: its
collector guard (`collector`), the pass over container statistics (`container_scan`), the metric table
(`metric_store`) and the text form of its timestamps (`timestamps`).

Where a claim one would expect is false of the code, the code is modelled as it is, and there is both a lemma that shows
the failure and one that says exactly when the claim holds:

- Beyond one page of records a clean reconcile misses the rest; exactly when that matters is `Reconcile.CleanRunExact`,
  and `Reconcile.UnlistedRecordsSurvive` shows it.
- Retries do not always make only needed writes. As long as no late write takes effect they do exactly when no desired
  address can be crowded off a page, for a zone of one page: when records and missing addresses together fit one
  (`Retries.MinimalExactlyWhenItFits`). With late writes they do exactly when, besides, every desired address is served
  already and no addition is on the way (`Retries.MinimalDespiteLateWrites`); a missing one can always be added twice
  (`Retries.LateAdditionIsRepeated`). In every case the waste is exactly the number of repeated additions
  (`Retries.WritesAccounted`).
- The lock is not rechecked during a reconcile, so leaders that found different addresses healthy can empty the
  hostname. From wherever each of them is, they do exactly when none has an address left to add and every record is to
  be deleted by one of them (`StaleLeader.LeadersEmptyTheHostname`; `StaleLeader.NewLeaderEmptiesTheHostname` and
  `StaleLeader.SecondListsLater` put the condition in terms of the last listing). `TwoLeaders.TwoLeadersInARun` reaches
  it from every initial state, the second leader listing before, while or after the first one adds, and
  `TwoLeaders.AnyLeadersInARun` is about every reachable state. With one healthy set any interference converges.
- When ticks of one process overlap, a tick can lead with another session than the one it renewed, also if the timer
  fires as it should (`LeaderSafety.OverlapMayUseAnotherSession`), exactly when `sessionId` had changed by the time its
  renewal was answered (`LeaderSafety.GrantIsForTheSessionHeldAtRenewal`).
- `expandAll` lists nothing unless an item is selected (`TreeWalk.ExpandAllResult`); on a single root item both results
  leave out the root (`TreeWalk.SearchBelowSingle`, `TreeWalk.ExpandAllBelowSingle`).
- Printing and reading back is stable only for scalar and structured kinds (`PackVars.PrintReadPrint`).
- An unreadable start date can leave the listing unsorted (`DeploymentRows.UnreadableDateBreaksTheOrder`); it is sorted,
  in whatever order the rows come, exactly when no date is unreadable or all readable ones agree
  (`DeploymentRows.SortedExactlyIfConsistent`).
- Timestamps with trailing zeros dropped do not always sort like times (`Timestamps.TextOrderIsTimeOrder`); cleanup
  decides wrongly about a row exactly then, in either direction (`Timestamps.CleanupErrsOnClash`).
- A list already longer than the window never shrinks (`StatsWindow.LengthAfterUpdates`).
- Presses up and down do not always cancel: from a positive text not when a step is a half over a whole number of
  units, and from the empty text not unless a step is at least one unit and rounds down (`Converter.UpAndDown`).

## Model

| member | source | states |
|---|---|---|
| `Dns.DesiredExact` | apps/dokploy/lb-controller.ts:140-148 | The desired list holds exactly the non-empty addresses of members whose probe succeeded, once each, in increasing order |
| `Dns.DesiredOrderIndependent` | apps/dokploy/lb-controller.ts:140-148 | Member lists with the same healthy addresses give the same desired list, whatever their order and repetitions |
| `Ordering.LessAtFirstDifference` | apps/dokploy/lb-controller.ts:148 | The order of texts is decided where they first differ |
| `Dns.SmallZoneIsListed` | apps/dokploy/lb-controller.ts:157-160 | With at most 100 records the list call misses none |
| `Dns.PickZonePrefersTheName` | apps/dokploy/lb-controller.ts:154-155 | The first zone with the exact name is used wherever it stands, the first row only when none has it, and none when the chosen id is empty |
| `Dns.PickZoneFinds` | apps/dokploy/lb-controller.ts:154-156 | A zone that is used has a row with a non-empty id that carries the name, or that is the first of rows none of which does; without rows there is none |
| `Reconcile.MakeBeforeBreak` | apps/dokploy/lb-controller.ts:161-184 | At every moment of a lone reconcile, wherever it stops and however its calls end: all earlier records are kept while adding, all desired addresses are served while deleting, no served and desired address disappears, and the hostname is not emptied; nor by any writes still on the way when they take effect |
| `Reconcile.AfterWithin` | apps/dokploy/lb-controller.ts:164-184 | At every moment of a lone reconcile, whatever its calls do, only listed and unwanted records are deleted and only wanted and unlisted addresses are added, late writes included |
| `Reconcile.AddsInOrder` | apps/dokploy/lb-controller.ts:148-177 | A lone reconcile adds by increasing address, whatever its calls do |
| `Reconcile.Terminates` | apps/dokploy/lb-controller.ts:164-184 | Every reconcile is over within one turn per desired address and listed record plus two, whatever its calls do |
| `Reconcile.CleanRunExact` | apps/dokploy/lb-controller.ts:157-184 | A run without errors finishes, and leaves exactly the desired addresses if and only if every unlisted record serves a desired one |
| `Reconcile.CleanRunOnOnePage` | apps/dokploy/lb-controller.ts:157-184 | With at most one page of records the result is exactly the desired addresses, and empty just when nothing is desired |
| `Reconcile.UnlistedRecordsSurvive` | apps/dokploy/lb-controller.ts:157-160 | With more than a page of unwanted records no clean run reaches the desired contents, whatever page it gets |
| `Retries.WriteLowersDistance` | apps/dokploy/lb-controller.ts:164-184 | A write lowers the number of missing addresses plus unwanted records by exactly one, unless it adds a served address or removes nothing, and then leaves it |
| `Retries.WritesAccounted` | apps/dokploy/lb-controller.ts:164-184 | Over any series of listings, turns with any outcome, crashes and late writes taking effect: writes made plus distance to go equal the initial distance plus the repeated additions, if writes already on the way at the start agree with the desired list or do not take effect |
| `Retries.RetriesAreMinimal` | apps/dokploy/lb-controller.ts:157-184 | If every listing is of at most one page and no late write takes effect, nothing is repeated: writes made plus distance to go equal the initial distance, at every moment |
| `Retries.MinimalExactlyWhenItFits` | apps/dokploy/lb-controller.ts:157-184 | From a zone of any size: every series in which no late write takes effect is minimal if and only if no desired address can be crowded off a page; from a zone of one page, if and only if records and missing addresses fit one page |
| `Retries.CompletedSeries` | apps/dokploy/lb-controller.ts:164-184 | In a series whose listings are of at most one page and in which no late write takes effect: once a reconcile finishes, the zone is exact and the writes equal the initial distance; all that follows writes nothing and leaves the zone |
| `Retries.ExactIsDistanceZero` | apps/dokploy/lb-controller.ts:161-184 | The distance is zero exactly when the served addresses are the desired ones |
| `Retries.LateAdditionIsRepeated` | apps/dokploy/lb-controller.ts:164-176 | For any desired address that is missing, in a zone of any size, there is a series that adds it twice: the addition fails for its caller, the next reconcile makes it again, and then the first takes effect |
| `Retries.MinimalDespiteLateWrites` | apps/dokploy/lb-controller.ts:157-184 | If writes on the way at the start agree with the desired list: every series at all, with late writes taking effect, is minimal if and only if every desired address is served already, none can be crowded off a page, and no addition is on the way at the start |
| `StaleLeader.LeadersExact` | apps/dokploy/lb-controller.ts:157-184 | Any number of leaders, each at any point of its loops with any out-of-date listing, their turns in any order, all finished: exactly the records that one of them still has to delete are gone, all others are kept, and new records stand for exactly the addresses that one still has to add |
| `StaleLeader.LeadersOnOneListing` | apps/dokploy/lb-controller.ts:157-184 | After leaders that listed the same records an address is served exactly if one wants it and either all do or it was not served before |
| `StaleLeader.LeadersEmptyTheHostname` | apps/dokploy/lb-controller.ts:157-184 | They leave the hostname empty exactly when, at any moment after the last listing, none has an address to add and every record is to be deleted |
| `StaleLeader.NewLeaderEmptiesTheHostname` | apps/dokploy/lb-controller.ts:157-184 | When a new leader lists behind others still writing, together they empty the hostname exactly when the others add nothing more, it finds all it wants, and it wants only records that the others delete |
| `StaleLeader.SecondListsLater` | apps/dokploy/lb-controller.ts:157-184 | When a second leader lists after any number of turns of the first loop of the first: exactly when it wants only what was served before and the first does not want, and what the first had not yet looked at was served before |
| `StaleLeader.LeadersBounded` | apps/dokploy/lb-controller.ts:157-184 | Whatever of their writes fails, is lost or late, and wherever they stop, leaders delete only what they still had to delete and add only what they still had to add |
| `StaleLeader.LandedBounded` | apps/dokploy/lb-controller.ts:157-184 | Nor do late writes when they take effect afterwards, theirs or earlier ones that are counted in |
| `TwoLeaders.PlayRun` | apps/dokploy/lb-controller.ts:157-184 | Every interleaving of the turns of reconciles in flight is a run of the step system |
| `TwoLeaders.AnyLeadersInARun` | apps/dokploy/lb-controller.ts:157-204 | In every reachable state: every interleaving in which all reconciles in flight finish is a run, and it empties the hostname exactly when none of them has an address to add and every record is to be deleted |
| `TwoLeaders.TwoLeadersInARun` | apps/dokploy/lb-controller.ts:157-208 | From every initial state with room on a page there is, for every two probe results and every number of turns, a run with the timers kept in which a process leads and hangs after so many turns, a second takes over and lists, and both finish; it empties the hostname exactly when all the second found healthy was served at first and not healthy to the first, and all the first had not yet looked at was served at first |
| `Cluster.InvStep` | apps/dokploy/lb-controller.ts:41-204 | Every step of any process, of Consul or of the provider keeps the invariant: sessions belong to the process that asked for them, a granted lock is held or its session is gone, listed records are unchanged or gone |
| `Cluster.InvRun` | apps/dokploy/lb-controller.ts:41-204 | So every state of every run satisfies it |
| `Warrants.EveryChangeIsWarranted` | apps/dokploy/lb-controller.ts:137-204 | In every run of any number of processes: when the records change, one write takes effect that a tick sent after it had got the lock, read a configuration that is switched on, probed, found the zone and listed, in this order; an added address was healthy in its own probe and not listed, a deleted record was listed and not healthy |
| `Warrants.SwitchedOffStaysUntouched` | apps/dokploy/lb-controller.ts:137-138 | In a run in which no configuration that is read is switched on, the records stay as they are |
| `Reconcile.TurnEvolves` | apps/dokploy/lb-controller.ts:164-184 | A loop turn with any outcome creates only new ids, edits no record, and keeps what a reconcile knows of its listing, whoever else writes |
| `LeaderSafety.AtMostOneLiveLeader` | apps/dokploy/lb-controller.ts:70-82 | In every reachable state all ticks whose grant is backed by a live session share one session of one process, and it holds the lock |
| `LeaderSafety.EntryWasGranted` | apps/dokploy/lb-controller.ts:189-200 | A tick past the lock was earlier granted and confirmed the lock for a live session that its own process had created |
| `LeaderSafety.GrantIsForTheRenewedSession` | apps/dokploy/lb-controller.ts:191-198 | While the ticks of its own process do not overlap, whatever other processes do, that session is the one the tick renewed |
| `LeaderSafety.GrantIsForTheSessionHeldAtRenewal` | apps/dokploy/lb-controller.ts:191-198 | With overlaps too: a tick past the lock was answered its renewal, and its grant is for the renewed session exactly when that was then still the process's `sessionId` |
| `LeaderSafety.OverlapMayUseAnotherSession` | apps/dokploy/lb-controller.ts:191-208 | From every initial state there is a run, with each first tick ended before the next start and an interval between starts, in which overlapping later ticks make a tick lead with another session than it renewed |
| `LeaderSafety.GrantsAreSeparated` | apps/dokploy/lb-controller.ts:43-82 | Between grants to two sessions the earlier one ended while holding the lock, at least five seconds before the later grant |
| `LeaderSafety.RenewalProtects` | apps/dokploy/lb-controller.ts:43-68 | A session that was created or renewed is live for thirty seconds unless destroyed, and keeps the lock that long once it holds it, whatever the processes do |
| `LeaderSafety.SessionAfterStep` | apps/dokploy/lb-controller.ts:189-196 | A process's `sessionId` after each answer to one of its ticks: new after an answered creation, cleared after a failed creation or renewal, else as it was |
| `Convergence.PhaseIsMonotone` | apps/dokploy/lb-controller.ts:157-184 | While all in-flight reconciles want the same set, under any interleaving, failure, loss and delay, wanted records only grow and unwanted ones only shrink |
| `Convergence.ConvergesUnderInterference` | apps/dokploy/lb-controller.ts:157-184 | Any reconcile that listed in that phase and finished without error has left exactly the wanted addresses, and they stay |
| `Convergence.OnePageMissesNone` | apps/dokploy/lb-controller.ts:157-160 | With at most 100 records the condition of convergence on the listing holds |
| `Takeover.FreeTheLock` | apps/dokploy/lb-controller.ts:43-56 | From every reachable state the lock comes free within 35 seconds, the session lifetime and the lock delay, if its holder is not renewed |
| `Takeover.SurvivorLeads` | apps/dokploy/lb-controller.ts:189-208 | From every reachable state and wherever its timer stands, an undisturbed running process, its lost session created anew, holds the lock with a session of its own at the latest at the third firing, in at most sixteen steps |
| `Takeover.SurvivorTakesOver` | apps/dokploy/lb-controller.ts:23-208 | Then its reconcile finishes, within 95 seconds from the start (a session lifetime, a lock delay and two intervals), and the zone serves exactly the addresses it probed as healthy, whatever hung in the state before, if the hostname has at most a page of records |
| `Takeover.TakeoverFromReachable` | apps/dokploy/lb-controller.ts:189-208 | The same from the end of any run |
| `Controller.DnsApi.Send` | apps/dokploy/lb-controller.ts:166-182 | One provider write: the zone after each of its outcomes, and whether it raised an error |
| `Controller.Agent.Create` | apps/dokploy/lb-controller.ts:43-56 | A session id only when the answer arrived, a new session also when it got lost |
| `Controller.Agent.Renew` | apps/dokploy/lb-controller.ts:58-68 | True exactly for a live session and an answer; the session is renewed even if the answer is lost |
| `Controller.Agent.Acquire` | apps/dokploy/lb-controller.ts:70-82 | True exactly when Consul can grant the lock and the answer arrives; granted even if it is lost |
| `Controller.Process.AddMissing` | apps/dokploy/lb-controller.ts:164-177 | The add loop ends where the step function ends after its turns, stopping at the first error |
| `Controller.Process.DeleteUnwanted` | apps/dokploy/lb-controller.ts:178-184 | The delete loop, entered where the add loop ends, completes the step function's run |
| `Controller.Process.Reconcile` | apps/dokploy/lb-controller.ts:137-185 | Nothing is done with a configuration that is off or lacks hostname or token, without an answer to the zone or record call, or without a zone, and which of these ended it; otherwise only listed unhealthy records are deleted and only unlisted healthy addresses added, in increasing order, no served healthy address is lost, and a finished run on at most 100 records serves exactly the healthy addresses, as it does when all writes are answered |
| `Controller.Process.HoldSession` | apps/dokploy/lb-controller.ts:190-196 | Exactly when a session is held: the old one if it is live, else an answered new one, its renewal answered; otherwise `sessionId` is cleared; and this part is a run of the step system |
| `Controller.Process.Lead` | apps/dokploy/lb-controller.ts:190-198 | It leads exactly when it holds a session, that session has or can get the lock, and the answer arrives; it is then the holder; and this part is a run of the step system |
| `Controller.Process.Tick` | apps/dokploy/lb-controller.ts:189-204 | The zone changes only if the tick leads, the configuration is on, the zone is found and the records are listed, and then as stated for the reconcile; a tick that no other step interrupts, whatever answers it gets, is one run of the step system with the same session variable, Consul state and zone |
| `TreeWalk.Walker.WalkItems` | apps/dokploy/components/ui/file-tree.tsx:64-76 | On an array the shared list gains the path to the target, is restored if there is none, and gains the preorder with `expandAll` |
| `TreeWalk.Walker.WalkItem` | apps/dokploy/components/ui/file-tree.tsx:77-82 | The same for one item, whose own id its caller pushed |
| `TreeWalk.ExpandedItemIds` | apps/dokploy/components/ui/file-tree.tsx:57-86 | Empty without a selection, in both modes and for both kinds of data; with `expandAll` the ids of all places in preorder; else the ids on the way down to the first match in preorder, and empty without a match; on a single item without the item's own id |
| `TreeWalk.PathIsFirstMatch` | apps/dokploy/components/ui/file-tree.tsx:64-82 | The path found leads to the first place in preorder that carries the id; without such a place there is no path |
| `TreeWalk.SearchResult` | apps/dokploy/components/ui/file-tree.tsx:57-86 | On an array the result is empty exactly when the id is absent, and otherwise the ids down to its first occurrence in preorder |
| `TreeWalk.SearchBelowSingle` | apps/dokploy/components/ui/file-tree.tsx:77-85 | On a single item the result with the root's id in front is the way to the first match, so it is also empty when the root is selected |
| `TreeWalk.PreorderOrder` | apps/dokploy/components/ui/file-tree.tsx:64-82 | The preorder names every place of the forest exactly once, parents before children and siblings in order |
| `TreeWalk.ExpandAllResult` | apps/dokploy/components/ui/file-tree.tsx:57-86 | With `expandAll` the result is that preorder if something is selected, and empty otherwise |
| `TreeWalk.ExpandAllBelowSingle` | apps/dokploy/components/ui/file-tree.tsx:57-86 | On a single item the result with the root's id in front is the preorder |
| `PackVars.StringRoundTrip` | apps/dokploy/lib/pack-vars.ts:45-67 | For every sequence of code units and every kind that is printed as a string, reading back the printed literal gives the value |
| `PackVars.ReaderIsExact` | apps/dokploy/lib/pack-vars.ts:45-57 | A default is read as a string exactly when it is a string literal as section 7 of RFC 8259 has it, with white space around it at most, and as the string that the literal denotes |
| `PackVars.LiteralOfValue` | apps/dokploy/lib/pack-vars.ts:60-66 | A number or structured value is printed as itself without the white space around it, and a bool as true exactly for the text true |
| `PackVars.ShownDefault` | apps/dokploy/lib/pack-vars.ts:45-57 | What is shown for every default: the denoted string, or without one quote at either end if it denotes none; for other kinds the default itself |
| `PackVars.PrintReadPrint` | apps/dokploy/lib/pack-vars.ts:24-67 | Print, read, print equals print exactly for the three scalar and five structured kinds, hence for every editable variable; which are editable |
| `PackVars.LiteralIsClean` | apps/dokploy/lib/pack-vars.ts:66 | A printed literal has no control character and no lone surrogate (section 7 of RFC 8259) |
| `PackVars.TrimIdempotent` | apps/dokploy/lib/pack-vars.ts:61-65 | Trimming a printed number or structured value again changes nothing |
| `PackVars.SpaceCharacters` | apps/dokploy/lib/pack-vars.ts:61-65 | Which characters the trimming drops: the white space and line terminators of sections 12.2 and 12.3 of ECMA-262 |
| `PackSecrets.TwoPassesAreOne` | apps/dokploy/lib/pack-secrets.ts:28-29 | The two replacements equal one pass that escapes backslashes and quotes |
| `PackSecrets.ValueRoundTrip` | apps/dokploy/lib/pack-secrets.ts:28-29 | A reader behind the opening quote gets the value back and stops at the closing quote, so no quote is left unescaped |
| `PackSecrets.EscapeInjective` | apps/dokploy/lib/pack-secrets.ts:28-29 | Different values have different escaped forms |
| `PackSecrets.SecretShape` | apps/dokploy/lib/pack-secrets.ts:11-26 | A default of 32 or 64 hexadecimal digits gets a lower-case one of its length, any other default 32 letters and digits |
| `PackSecrets.SecretCharacters` | apps/dokploy/lib/pack-secrets.ts:18-25 | Which characters the drawn bytes give: two hexadecimal digits each, or the letter or digit of that number modulo 62 |
| `PackSecrets.SecretsDiffer` | apps/dokploy/lib/pack-secrets.ts:12-25 | Two draws give one secret exactly when their bytes agree, modulo 62 for the alphanumeric form |
| `PackSecrets.SelectInPlace` | apps/dokploy/lib/pack-secrets.ts:46-47 | Every variable is kept in its place exactly when it is sensitive and of string or absent kind |
| `PackSecrets.LineRoundTrip` | apps/dokploy/lib/pack-secrets.ts:48-50 | A line is the name, an equals sign between spaces, and the escaped value in quotes; for an identifier and any value it parses back to them |
| `PackSecrets.VarFileRoundTrip` | apps/dokploy/lib/pack-secrets.ts:43-52 | The file exists exactly when a variable is selected, has one line for each and a final newline, and parses to the selected variables in order with the secrets for their defaults |
| `InngestEvents.FetchInngestEvents` | apps/api/src/service.ts:60-102 | At most five requests and 500 events against any server; against one that pages through a feed a prefix of it, of length min(500, feed) unless the last response was an error or a full page without a cursor, where the cursor is `cursor`, else `nextCursor`, else the last event's internal id |
| `InngestEvents.SomeServer` | apps/api/src/service.ts:60-102 | For every feed there is a server that pages through it reliably |
| `DeploymentRows.StatusUpToCase` | apps/api/src/service.ts:48-58 | Each state but pending is given exactly by its own word in any casing |
| `DeploymentRows.BuildDeploymentRows` | apps/api/src/service.ts:142-206 | The listing of exactly the events that ask for a deployment on the server, in their order |
| `DeploymentRows.FetchDeploymentJobs` | apps/api/src/service.ts:209-239 | Empty without a key, an error without an address, else the listing of the first 50 events that ask for a deployment on the server: before sorting a block for each event, with a row for each run or a waiting row, id, name, data, times, state and reason taken from the run and the event; then by non-increasing time if all dates are readable, equal times in that order |
| `DeploymentRows.EveryRunIsListed` | apps/api/src/service.ts:154-203 | Every run of a listed event has a row that tells of it, and every listed event without runs a waiting row |
| `DeploymentRows.RequestedIsNoOp` | apps/api/src/service.ts:147-151 | The filter inside the row builder keeps everything its caller passes |
| `DeploymentRows.RowsByEvent` | apps/api/src/service.ts:154-203 | Before the sort each event's rows form one block, at the position given by the sum of max(1, runs) over earlier events |
| `DeploymentRows.AllRowsInBlocks` | apps/api/src/service.ts:154-203 | Each row of such a block tells of its run, or of its waiting event |
| `DeploymentRows.RowsConserved` | apps/api/src/service.ts:154-205 | The listing is a permutation of these rows and their number is the sum of max(1, runs) |
| `DeploymentRows.EveryRowAccounted` | apps/api/src/service.ts:154-203 | A row is listed exactly if it tells of a run of a listed event, or of a listed event without runs |
| `DeploymentRows.RowFields` | apps/api/src/service.ts:173-201 | A finish time stands only on completed, failed and cancelled rows, a failure reason only on failed ones |
| `DeploymentRows.SortedByTimestamp` | apps/api/src/service.ts:205 | With readable dates the timestamps do not increase |
| `DeploymentRows.SortIsStable` | apps/api/src/service.ts:205 | Rows of equal timestamps keep the order of events and runs |
| `DeploymentRows.ConsistentComparator` | apps/api/src/service.ts:175-205 | The comparator is consistent exactly when no row has an unreadable date or all readable dates agree |
| `DeploymentRows.SortedExactlyIfConsistent` | apps/api/src/service.ts:175-205 | Exactly then is the listing of every permutation of the rows sorted |
| `DeploymentRows.UnreadableDateBreaksTheOrder` | apps/api/src/service.ts:175-205 | With an unreadable date between an earlier and a later one a stable sort leaves the rows unsorted |
| `Collector.InvStep` | apps/monitoring/containers/monitor.go:81-95 | Every step of any call keeps the guard's invariant |
| `Collector.MutualExclusion` | apps/monitoring/containers/monitor.go:81-111 | In every reachable state of any number of calls at most one collects and at most one holds the mutex, and `isRunning` is true exactly while one collects |
| `Collector.SecondCallSkips` | apps/monitoring/containers/monitor.go:82-87 | A call that reaches its check while another collects never collects, whatever the others do meanwhile |
| `Collector.GuardIsReleased` | apps/monitoring/containers/monitor.go:91-111 | From every reachable state at most seven steps, through any exit of the body, free the mutex and clear the flag |
| `Collector.NextCallCollects` | apps/monitoring/containers/monitor.go:81-95 | So a new call can always reach the body |
| `ContainerScan.ShouldMonitorContainer` | apps/monitoring/containers/config.go:31-52 | No exclusion occurs in the name, and an inclusion does if there are any; never without a configuration |
| `Strings.ContainsOccurrence` | apps/monitoring/containers/config.go:36-47 | An entry matches exactly when it occurs at some position of the name |
| `Strings.SplitExact` | apps/monitoring/containers/monitor.go:114 | The lines are exactly the texts without the separator that give the output when joined |
| `ContainerScan.ServiceNameCutsAtLastHyphen` | apps/monitoring/containers/config.go:54-61 | Split, drop the last part and join equals cutting at the last hyphen behind at most one leading slash |
| `ContainerScan.Scan` | apps/monitoring/containers/monitor.go:108-148 | Saves are attempted for exactly those containers that a non-empty line gives, that are monitored, and that no earlier such line shares its service with, in output order |
| `ContainerScan.OnePerService` | apps/monitoring/containers/monitor.go:113-135 | So services of attempts are distinct, and every service of a monitored container gets one |
| `ContainerScan.TokenSplitIsLossless` | apps/monitoring/containers/monitor.go:164-231 | Number and unit put together give the token exactly when all characters behind the leading digits and dots are in the cutset |
| `ContainerScan.PartsOfToken` | apps/monitoring/containers/monitor.go:164-231 | The unit is what follows the leading digits and dots, the number what precedes the trailing characters of the cutset |
| `ContainerScan.MemoryUnits` | apps/monitoring/containers/monitor.go:164-187 | MiB and GiB split cleanly; of KiB the K stays with the number |
| `MetricStore.Db.SaveMetric` | apps/monitoring/database/server.go:30-40 | Accepted exactly if no row has the key, and then the table gains the row, under its timestamp or under the current time if empty; refused, the table stays |
| `MetricStore.Db.CleanupMetrics` | apps/monitoring/database/cleanup.go:12-31 | Both tables keep exactly the rows that are not before the cutoff; an error of the first delete leaves the second undone |
| `MetricStore.Db.GetMetricsInRange` | apps/monitoring/database/server.go:42-64 | Exactly the table's rows from start to end, increasing; one contiguous stretch of the full listing |
| `MetricStore.Db.GetLastNMetrics` | apps/monitoring/database/server.go:66-92 | min(n, size) rows, all for a negative n, increasing, and later than all others; the end of the full listing |
| `MetricStore.Db.GetAllMetrics` | apps/monitoring/database/server.go:94-115 | The table's rows, each once, by strictly increasing timestamp |
| `MetricStore.LastNIsSuffix` | apps/monitoring/database/server.go:66-92 | Sorting descending, cutting to n and sorting ascending gives exactly the last min(n, size) rows of the full listing, and all of it for a negative n |
| `MetricStore.RangeIsSlice` | apps/monitoring/database/server.go:42-64 | A range query is the contiguous slice from the first row not before the start to the last not after the end |
| `MetricStore.CleanupRemovesPrefix` | apps/monitoring/database/cleanup.go:22-26 | Cleanup removes exactly the rows before the cutoff, and they are a prefix of the listing |
| `MetricStore.AlwaysDistinct` | apps/monitoring/database/server.go:30-40 | After any saves and cleanups all timestamps differ |
| `MetricStore.RowHistory` | apps/monitoring/database/server.go:30-40 | After any saves and cleanups a row is in the table exactly if some save gave it, was not refused, and no later cleanup had a cutoff behind it; refused is a save exactly if an earlier row with its key is still there |
| `MetricStore.ListingsAgree` | apps/monitoring/database/server.go:30-115 | After any saves, refused ones included, and cleanups: the listing is strictly increasing and has the table's rows, the last n are its suffix, a range its slice, and a further cleanup removes its prefix |
| `Timestamps.TextOrderIsTimeOrder` | apps/monitoring/database/server.go:31-48 | Two stamps compare as texts like in time exactly unless they share a second and the trimmed digits of one continue the other's |
| `Timestamps.FormatExact` | apps/monitoring/database/server.go:32 | A stamp is the second, a dot and the digits up to the last that is not zero, if any, and Z |
| `Timestamps.CleanupErrsOnClash` | apps/monitoring/database/cleanup.go:13-26 | Cleanup decides about a row of any table as time would, removing it exactly if it is earlier than the cutoff, if and only if row and cutoff do not clash |
| `StatsWindow.StatsDir.UpdateStatsFile` | packages/server/src/monitoring/utils.ts:181-199 | The file of that application and statistic gets the sample, loses its oldest if it had 288 or more, starts anew if absent or unreadable; no other file changes |
| `StatsWindow.StatsDir.ReadLastValue` | packages/server/src/monitoring/utils.ts:201-214 | The sample that the stored list ends with; none exactly if there is no list or it is empty |
| `StatsWindow.WindowPerKey` | packages/server/src/monitoring/utils.ts:167-214 | Starting without files, after any interleaved updates each file holds exactly its own last min(n, 288) samples in order, and the reader gives the latest |
| `StatsWindow.LengthAfterUpdates` | packages/server/src/monitoring/utils.ts:187-192 | From any files the length is the smaller of total and 288 exactly when the list started within 288; a longer list keeps its length |
| `StatsWindow.PrintedPairSplits` | packages/server/src/monitoring/utils.ts:25-38 | Splitting a printed `a / b` on spaces gives exactly its parts if and only if neither has a space |
| `TrustedOrigins.OriginsService.GetTrustedOrigins` | packages/server/src/services/admin.ts:123-157 | A query runs exactly outside the cloud or when no cached result is before its expiry; its origins are answered and, in the cloud, cached for thirty minutes; a failed query gives the old result, or nothing |
| `TrustedOrigins.OriginsExact` | packages/server/src/services/admin.ts:124-131 | A query's answer has exactly the origins of the rows, once each |
| `TrustedOrigins.OriginsInOrder` | packages/server/src/services/admin.ts:124-131 | They stand in the order in which they first occur in the rows |
| `TrustedOrigins.CacheIsLastRefresh` | packages/server/src/services/admin.ts:133-149 | Over any run of calls the cache is the last refreshing call's result with its expiry, or nothing before the first |
| `TrustedOrigins.QueryExactlyWhenStale` | packages/server/src/services/admin.ts:134-139 | The cache is stale exactly when every result so far was begun at least 30 minutes earlier |
| `TrustedOrigins.EveryAnswer` | packages/server/src/services/admin.ts:120-149 | A query runs exactly then; every other answer is the last result, begun less than 30 minutes earlier; after a failed query it is the last result, or empty if there was none |
| `Converter.ParseDecimal` | apps/dokploy/components/ui/number-input.tsx:15-21 | Parsing the printed form of a whole number gives the number |
| `Converter.ParseIntExact` | apps/dokploy/components/ui/number-input.tsx:15-19 | What every typed text is read as: white space, a sign, leading zeros, a whole number and then no digit give that number, any other text none |
| `Converter.DecimalDigits` | apps/dokploy/components/ui/number-input.tsx:20-21 | The printed digits of a whole number |
| `Converter.ReadThenPrint` | apps/dokploy/components/ui/number-input.tsx:15-21 | Reading and printing a canonical text gives the text, for every multiplier |
| `Converter.UpInUnits` | apps/dokploy/components/ui/number-input.tsx:43-44 | A press up adds the step, in units, and rounds |
| `Converter.DownInUnits` | apps/dokploy/components/ui/number-input.tsx:45-57 | A press down subtracts it, stops at zero and rounds; without a positive amount the button does nothing |
| `Converter.UpAndDown` | apps/dokploy/components/ui/number-input.tsx:15-46 | k presses up and k down restore a canonical text exactly if k is zero, or it is positive and a step is no half over a whole number of units, or it is empty and a step is at least one unit and rounds down; a half gains k units |
| `Converter.UpAndDownWhole` | apps/dokploy/components/ui/number-input.tsx:15-46 | With a step of a whole number of units every canonical text is restored, the empty one of zero too |
| `Converter.NeverNegative` | apps/dokploy/components/ui/number-input.tsx:20-46 | Whatever was typed and pressed, the text is still the typed one or stands for no negative amount |

## Left out

- The network, Consul and the DNS provider themselves: their answers are outcomes and inputs. Provider writes may take effect late; a Consul request that takes effect after its caller gave up is not modelled.
- More than one zone or hostname, and the `ttl` and `proxied` fields of records: a reconcile always works on one zone, and a record is its id and address. A configuration that changes the hostname between ticks is not modelled.
- Who else edits the hostname's records: only controllers do in the model.
- Retries.RetriesAreMinimal: is about series in which no late write takes effect; series with late writes are in MinimalDespiteLateWrites.
- Retries.WritesAccounted: a series is one reconcile after another, as one leader at a time runs them; reconciles that overlap are counted nowhere.
- StaleLeader.LeadersExact: is about leaders that all finish; for leaders that fail or stop there are the bounds of LeadersBounded and LandedBounded.
- Takeover.SurvivorTakesOver: states that a schedule exists in which other processes are silent and calls are answered at once; fairness of a real scheduler is not modelled. The timer is taken to be running, so the first tick of its process has ended.
- Controller.Process.Tick: is the tick without interruption; interleaved ticks exist in the step system only. The ghost arguments of these methods name the abstract state they are compared with.
- The console messages and the probe's sockets. The step system lets a process start ticks at any time; the timer's rule is a condition on runs, and safety does not depend on it.
- PackVars.StringRoundTrip: reads back what was printed. For defaults that hold a JSON value other than a string `DisplayDefault` does not parse the value: such a text has no quote at either end for stripping to remove, so both ways show it as it is.
- The placement constraint literal and the description, placeholder and label fields of pack variables.
- Bias of `byte % 62` and the quality of the random source.
- HCL template sequences in secrets: generated secrets have none.
- A request of `fetchInngestEvents` that is rejected rather than answered: the rejection ends the whole listing.
- DeploymentRows.FetchDeploymentJobs: takes the gathered runs as a map; the concurrent fetches that fill it are left out, as is lower-casing beyond ASCII letters.
- DeploymentRows.SortedByTimestamp: requires readable dates; for inconsistent comparators the order is the JavaScript engine's, and the model's stable sort is one example.
- MetricStore.Db.GetMetricsInRange: for this and the other queries, SQL errors, and the columns besides the timestamp, which are one `reading`; container metric queries and inserts are left out too.
- StatsWindow.StatsDir.UpdateStatsFile: does not model a file that holds JSON other than a list, two updates of one file at the same time, or a failed write.
- The host's disk, memory and network numbers and their formatting.
- ContainerScan.Scan: leaves out the fields of a saved metric apart from the number and unit split; parsing of the number and of white space around tokens is not modelled.
- Timestamps.TextOrderIsTimeOrder: takes the fixed-width date and clock part as already ordered like time, which holds for the years 0000 to 9999.
- TrustedOrigins.EveryAnswer: is about calls that do not overlap.
- Converter.ReadThenPrint: this and the other converter lemmas use exact reals; floating point, the exponent form of numbers from 1e21 on, and some Unicode spaces of `parseInt` are not modelled.
- React components, pages, access control, queues, migrations and the other services.
