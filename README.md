# Simulated process table — a Dafny model

This project models the core of a process-viewer backend and dashboard. The backend holds a simulated
operating-system process table: one array of process records, a pid counter and a simulation timer. A
periodic step mutates the table. It applies a clamped random walk to CPU and memory, applies occasional
spikes, sometimes spawns a record and sometimes reaps one. HTTP handlers list, look up, kill and reset
records, compute aggregate stats, and start or stop the timer. A small file-backed table stores named
snapshots. The dashboard filters the list by a search term and sorts it by a clicked column.

Modules, one per source file plus shared helpers:

- `MockProcesses` (backend/mockProcesses.js). The class `ProcessTable` holds the module state:
  `processes`, `nextPid` and `simInterval`. Its methods change that state in place. Pure functions
  beside it (`StepProcesses`, `KillOutcome`, `AfterKill`, `ListByPid`, `Generated`, …) specify them.
- `Server` (backend/server.js): the decision logic of the route handlers.
- `SnapshotDb` (backend/db.js). The class `FileDB` holds the snapshot file's contents as a sequence.
  The SQL text dispatch becomes a typed `Query`.
- `Dashboard` (frontend/src/App.js): the search filter, `handleSort` and the displayed list.
- `Common`, `Strings`, `Sorting`: `find`/`findIndex`/`splice`, ASCII `toLowerCase`, `includes`,
  integer `toString`, string `<` by Unicode scalar value, `filter`, and a stable insertion sort that stands for
  `Array.prototype.sort`.

Representation choices:

- CPU and memory are integer tenths of a percent in [0, 1000]. The source rounds every value it stores
  to one decimal, so sums and comparisons are exact.
- Each `Math.random()` draw is a caller-supplied value with its stated range: `GenDraw`, `WalkDraw`
  and `StepDraw`.
- A `parseInt`/`Number` result is an `Option<int>`, where `None` stands for `NaN`.
- `simInterval` is `Option<int>`, holding the interval passed to `setInterval`, or `None` while no timer is set.

Pid freshness. `resetMock` regenerates pids from 1000 but does not touch `nextPid`. Pids therefore stay
unique only while `nextPid` exceeds every live pid. The model exposes this condition (`PidsBelow`)
instead of assuming it:

- `SimulateStep` and `KillProcess` preserve uniqueness and freshness when both hold before.
- `ResetMock` states exactly when freshness holds afterwards.
- `ResetThenSpawnDuplicatesPid` shows that a reset to more records than the counter has passed makes
  the next spawn reuse a live pid.

## Model

| member | source | states |
|---|---|---|
| `MockProcesses.GenerateMockProcesses` | backend/mockProcesses.js:54-75 | the counting loop builds exactly the generated population: record i has pid 1000+i and the i-th draw's fields |
| `MockProcesses.GeneratedShape` | backend/mockProcesses.js:54-75 | a generated population has max(count,0) records with consecutive pids from 1000, cpu in [0,30.0], mem in [0,40.0], unique pids and in-range metrics |
| `MockProcesses.ResetFreshIff` | backend/mockProcesses.js:167-171 | after a reset, every pid is below the untouched counter iff count <= 0 or counter >= 1000+count |
| `MockProcesses.Clamp` | backend/mockProcesses.js:84 | the result lies in [lo,hi]; it equals v when v is in range, hi when v is above a well-ordered range, and lo when v is below lo or the range is empty |
| `MockProcesses.WalkRecord` | backend/mockProcesses.js:88-98 | a spike sets cpu (mem) to the spike value; without one, an in-range value moves toward the delta by at most the delta, by exactly the delta when that stays in range, and to the bound (0 or 100.0) when it leaves [0,100.0]; with in-range draws cpu and mem end in [0,100.0]; no other field changes |
| `MockProcesses.SpawnedRecord` | backend/mockProcesses.js:101-113 | a spawned record carries the given pid, an owner other than root, and cpu and mem in [0,30.0] |
| `MockProcesses.Spawned` | backend/mockProcesses.js:101-115 | a spawn adds exactly one record at the front with pid = old counter and a non-root owner; the rest of the store is unchanged; no spawn leaves it as is |
| `MockProcesses.ReapFirstNonRoot` | backend/mockProcesses.js:119-120 | removes exactly the first record in store order whose owner is not root; an all-root store is unchanged |
| `MockProcesses.Reaped` | backend/mockProcesses.js:118-121 | at or below 20 records, or with the coin down, the store is unchanged; above 20 with the coin up the first non-root record is removed |
| `MockProcesses.ReapedKeeps` | backend/mockProcesses.js:118-121 | reaping preserves in-range metrics, unique pids and the pid bound |
| `MockProcesses.StepMetricsInRange` | backend/mockProcesses.js:86-125 | after any step every record's cpu and mem lie in [0,100.0], whatever they were before |
| `MockProcesses.StepKeepsPidsFresh` | backend/mockProcesses.js:100-121 | if pids are unique and below the counter before a step, they are unique and below the new counter after it |
| `MockProcesses.ResetThenSpawnDuplicatesPid` | backend/mockProcesses.js:104-114 | after a reset to count records with 1000 <= counter < 1000+count, a spawning step without a reap yields a duplicate pid |
| `MockProcesses.MaxPid` | backend/mockProcesses.js:82 | the result is the largest pid of a non-empty store |
| `MockProcesses.InitialNextPid` | backend/mockProcesses.js:82 | the initial counter is above every loaded pid: max pid + 1, or 1000 for an empty store |
| `MockProcesses.ListByPid` | backend/mockProcesses.js:140-143 | the listing is a permutation of the store sorted by pid ascending |
| `MockProcesses.FindByPid` | backend/mockProcesses.js:145-148 | the lookup finds nothing iff no record has the pid; otherwise it returns the first stored record with that pid |
| `Common.FindIndex` | backend/mockProcesses.js:152 | `findIndex`: -1 iff no element satisfies the predicate, otherwise the first index that does |
| `Common.Find` | backend/mockProcesses.js:147 | `find`: none iff no element satisfies the predicate, otherwise the element at the first index that does |
| `Common.RemoveAt` | backend/mockProcesses.js:162 | `splice(i, 1)`: one element shorter, the elements before i unchanged and those after shifted down by one, the multiset less the removed element |
| `MockProcesses.KillOutcome` | backend/mockProcesses.js:150-159 | not found iff no record has the pid; forbidden only for a non-empty requester that is neither root nor the owner; permission is judged on the first record with the pid: Killed iff the requester may kill its owner, and Forbidden names that owner |
| `MockProcesses.AfterKill` | backend/mockProcesses.js:161-164 | on success exactly the first record with the pid is removed: one fewer record, the others keep their order; on 404 or 403 the store is unchanged |
| `MockProcesses.KillPermission` | backend/mockProcesses.js:156-159 | with unique pids, the owner and root always succeed on a live pid; any other non-empty requester gets 403 naming the owner |
| `MockProcesses.KillScenario` | backend/mockProcesses.js:150-164 | with records (1,root), (2,alice), (3,alice): bob gets 403 and the store is unchanged; alice succeeds and pids 1 and 3 remain |
| `MockProcesses.RemoveUniquePid` | backend/mockProcesses.js:162 | splicing out the first record with a pid from a store with unique pids leaves no record with that pid and keeps pids unique |
| `MockProcesses.KillThenLookupNotFound` | backend/mockProcesses.js:145-164 | with unique pids, after a successful kill the pid is no longer found and pids stay unique |
| `MockProcesses.ProcessTable.constructor` | backend/mockProcesses.js:78-82 | the loaded records become the store, the timer is off, and the counter is above every loaded pid |
| `MockProcesses.ProcessTable.WalkInPlace` | backend/mockProcesses.js:88-98 | the `forEach` loop replaces every record, in place, by its walked record and leaves the counter and timer alone |
| `MockProcesses.ProcessTable.SimulateStep` | backend/mockProcesses.js:86-125 | the store and counter become the step function of the old ones; metrics end in range; unique, fresh pids stay so |
| `MockProcesses.ProcessTable.StartSimulation` | backend/mockProcesses.js:127-130 | a start while running keeps the original interval; otherwise the timer is set with the given interval; nothing else changes |
| `MockProcesses.ProcessTable.StopSimulation` | backend/mockProcesses.js:132-136 | afterwards the timer is off, whether or not it was running; nothing else changes |
| `MockProcesses.ProcessTable.IsSimulationRunning` | backend/mockProcesses.js:138 | reports whether a timer is live |
| `MockProcesses.ProcessTable.GetProcesses` | backend/mockProcesses.js:140-143 | returns a permutation of the store sorted by pid ascending and changes nothing |
| `MockProcesses.ProcessTable.GetProcess` | backend/mockProcesses.js:145-148 | None iff no stored record has the pid, else the first stored record with that pid |
| `MockProcesses.ProcessTable.KillProcess` | backend/mockProcesses.js:150-165 | result and new store are the kill outcome and the after-kill store; the counter and timer are unchanged; unique and fresh pids are preserved |
| `MockProcesses.ProcessTable.ResetMock` | backend/mockProcesses.js:167-171 | the store becomes a fresh generated population with unique pids; the counter is not reset, and freshness holds iff count <= 0 or counter >= 1000+count |
| `Server.SumCpu` | backend/server.js:64 | with in-range records the cpu total lies in [0, 100.0 * count] |
| `Server.SumMem` | backend/server.js:65 | with in-range records the mem total lies in [0, 100.0 * count] |
| `Server.SumsOverSort` | backend/server.js:63-65 | summing over the sorted listing gives the same totals as summing over the store |
| `Server.StatsOfListing` | backend/server.js:63-66 | stats over the listing are (store length, cpu sum, mem sum) of the store, and are bounded for in-range records |
| `Server.GetStats` | backend/server.js:60-70 | process_count is the store length; total_cpu and total_mem are the sums over all records |
| `Server.KillStatus` | backend/server.js:44-53 | 400 iff the pid is NaN or below 1; otherwise 404 iff no record has the pid and 200 iff one does; never 403, since the requester is null |
| `Server.KillRoute` | backend/server.js:41-57 | returns the kill status; a 400 or 404 leaves the store unchanged, and a 200 removes the first record with the pid |
| `Server.ResetCount` | backend/server.js:75 | a NaN or zero count becomes 150, any other parsed count is kept |
| `Server.ResetRoute` | backend/server.js:73-81 | the reported count equals the new population's length, max(count,0), so a negative count empties the store |
| `Server.StartInterval` | backend/server.js:94 | a NaN or zero interval becomes 2000, any other parsed interval is kept |
| `Server.StartRoute` | backend/server.js:92-100 | echoes the defaulted interval even when an already-running timer keeps its original one |
| `Server.StopRoute` | backend/server.js:83-90 | the timer is off afterwards and the store is unchanged |
| `Server.GetProcessRoute` | backend/server.js:29-38 | 404 exactly when no record has the pid; otherwise 200 with the first record carrying it |
| `SnapshotDb.MaxId` | backend/db.js:29 | the result is the largest id of a non-empty table |
| `SnapshotDb.NextId` | backend/db.js:29 | the allocated id is 1 for an empty table, otherwise max id + 1, and exceeds every existing id |
| `SnapshotDb.FindById` | backend/db.js:43-48 | returns the first snapshot whose id equals the parsed id, or nothing when none does |
| `SnapshotDb.Summaries` | backend/db.js:50-59 | one row per snapshot in table order, holding only id, name, description and created_at |
| `SnapshotDb.InsertThenSelect` | backend/db.js:26-41 | an insert keeps unique ids unique, and selecting the new id returns the inserted snapshot with its own two timestamps |
| `SnapshotDb.FileDB.constructor` | backend/db.js:13-16 | the table starts as the stored file's contents |
| `SnapshotDb.FileDB.Query` | backend/db.js:20-62 | an insert appends one snapshot with the allocated id and returns it as the only row; a select by id returns the first match or no rows; the listing returns the summaries; create and unknown queries return no rows; only an insert changes the table, and it keeps ids unique |
| `Dashboard.HandleSort` | frontend/src/App.js:105-112 | the clicked field becomes the sort field; the same field flips the order and a new field starts ascending |
| `Dashboard.HandleSortToggles` | frontend/src/App.js:105-112 | clicking the current field twice restores the state; clicking a new field twice gives descending |
| `Dashboard.FirstClickFromInitial` | frontend/src/App.js:14-15 | from the initial pid-ascending state, clicking pid sorts descending and clicking any other column sorts it ascending |
| `Dashboard.Filter` | frontend/src/App.js:66-71 | a record is kept iff its lower-cased command, its pid's digits or its lower-cased user contains the lower-cased term (the pid digits contain the term as typed); every matching record is kept as many times as it occurs in the input, and no other |
| `Common.Keep` | frontend/src/App.js:66-71 | `filter` keeps each element satisfying the predicate exactly as many times as it occurs, drops the rest, and keeps everything when every element satisfies it |
| `Dashboard.FilterEmptyTermKeepsAll` | frontend/src/App.js:66-71 | an empty search term keeps every record, in order |
| `Dashboard.SearchByPidKeeps` | frontend/src/App.js:69 | a term that occurs in a record's pid string keeps that record |
| `Dashboard.Displayed` | frontend/src/App.js:64-90 | the shown list is a permutation of the filtered records, unchanged in content, ordered by the chosen field and direction |
| `Dashboard.DisplayedStrict` | frontend/src/App.js:73-87 | with distinct keys, ascending is strictly increasing and descending strictly decreasing |
| `Strings.Lower` | frontend/src/App.js:68 | lower-casing keeps the length and maps each character through ASCII lower-casing |
| `Strings.LowerIdempotent` | frontend/src/App.js:68 | lower-casing an already lower-cased string changes nothing |
| `Strings.IncludesIff` | frontend/src/App.js:68-70 | `includes` holds iff the term occurs at some position |
| `Strings.IncludesEmptyAndSelf` | frontend/src/App.js:68-70 | every string includes the empty string and itself |
| `Strings.DecimalString` | frontend/src/App.js:69 | a pid's string is non-empty and starts with '-' iff the pid is negative |
| `Strings.DecimalStringInjective` | frontend/src/App.js:69 | distinct pids have distinct decimal strings |
| `Strings.StrLessTransitive` | frontend/src/App.js:82-86 | the string `<` the comparator uses is transitive |
| `Strings.StrLessTotal` | frontend/src/App.js:82-86 | of two distinct strings one is `<` the other |
| `Sorting.SortBySorted` | frontend/src/App.js:73-87 | the sorted copy is ordered by the comparator's key in the chosen direction |
| `Sorting.SortBy` | frontend/src/App.js:73-87 | the sorted copy has the same length and the same multiset of elements as the input |
| `Sorting.SortedDistinctStrict` | frontend/src/App.js:73-87 | a sorted sequence with distinct keys is strictly ordered |

## Left out

- File persistence is not modelled. This covers `load`, `save` and `ensureDataDir` (backend/mockProcesses.js:7-34), the module-load file setup and `_readSnapshots`/`_writeSnapshots` (backend/db.js:9-16, 68-79). The loaded array is the `ProcessTable` constructor's argument. `save` has no effect on the model, since its failures are swallowed. The snapshot file is the `snapshots` field. A failed read returning `[]` is not modelled.
- `Math.random` and `randomInt` are not modelled; their results are parameters with the stated ranges. The probabilities (4% spawn, 3% reap, 0.5%/0.3% spikes, 20% save, the port-suffix coins) are not modelled, only the outcomes.
- `toFixed`/`parseFloat` floating point is not modelled. Values are integer tenths, so a walk delta is its rounded value in tenths (±2.0 and ±1.5 points) and sums are exact.
- Records loaded from a hand-edited file whose cpu or mem is missing are not modelled. The stats handler's `|| 0` fallback therefore has nothing to act on.
- Timers are not modelled: the `setInterval`/`clearInterval` handles and the periodic calls of `simulateStep`. Only the timer flag and its interval are kept, and the dashboard's auto-refresh (frontend/src/App.js:47-62) is out too.
- Object identity is not modelled: records are values. The source's records are shared objects, so `getProcess` returns the live object that a later step mutates. No modelled caller keeps one.
- Concurrency is not modelled: Node runs every exported function to completion on one thread.
- Express routing, CORS, JSON bodies, the health route, the 500 catch blocks and `app.listen`'s start of the simulation at 2000 ms are not modelled (backend/server.js).
- The snapshot routes (backend/server.js:103-148) are not modelled. Their table operations are modelled by `FileDB.Query`; `JSON.stringify` of the listing is not.
- `parseInt`/`Number` of arbitrary strings are not modelled; parsed values are `Option<int>`. For path strings like "1.5" or "12abc", `Number` and `parseInt` disagree, and the kill route's guard is modelled on the numeric value alone.
- MockProcesses.ProcessTable.StartSimulation: Node runs a `setInterval` delay below 1 or above 2147483647 ms every 1 ms. The model keeps the requested value (`POST /api/mock/start?ms=-5` stores and echoes -5), so `simInterval` is the requested interval, not the effective one.
- Default parameter values (`generateMockProcesses(count = 100)`, `resetMock(count = 150)`, `startSimulation(intervalMs = 2000)`) are not modelled. Every caller in the source passes the value.
- Strings.Lower: lower-cases ASCII letters only, whereas `toLowerCase` covers all of Unicode.
- Sorting.SortBySorted: `Array.prototype.sort` is modelled as a stable insertion sort. The dashboard's comparator never returns 0, so the order of equal keys is up to the engine. The model keeps their input order and states ordering only up to ties; with distinct keys the result is fully determined. The same sort stands for `getProcesses`' `sort((a, b) => a.pid - b.pid)` in MockProcesses.ListByPid, where records with equal pids keep their store order as the stable built-in sort does; ListByPid's contract states the order by pid and the permutation but not this stability.
- Dashboard.Displayed: `filtered.sort` sorts a fresh array in place. It is modelled as a function returning the sorted copy; since nothing else holds that array, no aliasing is lost.
- Dashboard.Filter: states which records are kept and how many times each. It does not state that the kept records keep their input order.
- Common.Keep: likewise states multiplicities but not that the kept elements keep their input order.
- Strings.StrLess: compares strings character by character on Unicode scalar values, whereas JavaScript compares UTF-16 code units. The two orders differ only when a character outside the Basic Multilingual Plane meets one in U+E000–U+FFFF.
- SnapshotDb.NewSnapshot: the two timestamps are separate parameters because `new Date()` is read twice; the model places no relation (such as order) between them.
- React state hooks, axios fetching, `window.confirm`/`alert` and all rendering components are not modelled (frontend/src/components/*). `Sparkline.js` is floating-point SVG geometry.
