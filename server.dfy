/**
 * The decision logic inside the route handlers of backend/server.js: stats
 * aggregation, kill-pid validation and status mapping, the defaulting of the
 * `count` and `ms` query parameters, and the 404 on a pid lookup.
 *
 * Parsed request parameters are `Option<int>`: None stands for `NaN`.
 */
module Server {
  import opened Common
  import opened Sorting
  import opened MockProcesses

  const DefaultResetCount := 150
  const DefaultIntervalMs := 2000

  /** `{ process_count, total_cpu, total_mem }`, totals in tenths of a percent. */
  datatype Stats = Stats(processCount: int, totalCpu: int, totalMem: int)

  function SumCpu(ps: seq<Proc>): (r: int)
    ensures MetricsInRange(ps) ==> 0 <= r <= MaxPercent * |ps|
  {
    if ps == [] then 0
    else
      assert MetricsInRange(ps) ==> MetricsInRange(ps[1..]) by {
        assert forall i :: 1 <= i < |ps| ==> ps[1..][i - 1] == ps[i];
      }
      ps[0].cpu + SumCpu(ps[1..])
  }

  function SumMem(ps: seq<Proc>): (r: int)
    ensures MetricsInRange(ps) ==> 0 <= r <= MaxPercent * |ps|
  {
    if ps == [] then 0
    else
      assert MetricsInRange(ps) ==> MetricsInRange(ps[1..]) by {
        assert forall i :: 1 <= i < |ps| ==> ps[1..][i - 1] == ps[i];
      }
      ps[0].mem + SumMem(ps[1..])
  }

  /** The `/stats` reduce over the listing it is given. */
  function StatsOf(listing: seq<Proc>): Stats
  {
    Stats(|listing|, SumCpu(listing), SumMem(listing))
  }

  lemma {:induction false} SumsOverInsert(x: Proc, s: seq<Proc>, key: Proc -> Key, descending: bool)
    ensures SumCpu(Insert(x, s, key, descending)) == x.cpu + SumCpu(s)
    ensures SumMem(Insert(x, s, key, descending)) == x.mem + SumMem(s)
    decreases |s|
  {
    if s != [] && !InOrder(key(x), key(s[0]), descending) {
      var r := Insert(x, s, key, descending);
      assert r[1..] == Insert(x, s[1..], key, descending);
      SumsOverInsert(x, s[1..], key, descending);
    }
  }

  lemma {:induction false} SumsOverSort(s: seq<Proc>, key: Proc -> Key, descending: bool)
    ensures SumCpu(SortBy(s, key, descending)) == SumCpu(s)
    ensures SumMem(SortBy(s, key, descending)) == SumMem(s)
    decreases |s|
  {
    if s != [] {
      SumsOverSort(s[1..], key, descending);
      SumsOverInsert(s[0], SortBy(s[1..], key, descending), key, descending);
    }
  }

  /**
   * The handler sums over the sorted listing; the totals are those of the
   * store in any order, and bounded by 100.0% per record.
   */
  lemma StatsOfListing(ps: seq<Proc>)
    ensures StatsOf(ListByPid(ps)) == Stats(|ps|, SumCpu(ps), SumMem(ps))
    ensures MetricsInRange(ps) ==>
      0 <= SumCpu(ps) <= MaxPercent * |ps| && 0 <= SumMem(ps) <= MaxPercent * |ps|
  {
    SumsOverSort(ps, PidKey, false);
  }

  /** GET /stats. */
  method GetStats(t: ProcessTable) returns (r: Stats)
    ensures r.processCount == |t.processes|
    ensures r.totalCpu == SumCpu(t.processes) && r.totalMem == SumMem(t.processes)
  {
    var listing := t.GetProcesses();
    r := StatsOf(listing);
    StatsOfListing(t.processes);
  }

  /** The kill route's guard `isNaN(pid) || pid < 1`, negated. */
  predicate KillPidValid(pid: Option<int>)
  {
    pid.Some? && pid.value >= 1
  }

  /** The HTTP status of POST /processes/:pid/kill; the store lookup runs with a null requester. */
  function KillStatus(ps: seq<Proc>, pid: Option<int>): (r: int)
    ensures r == 400 <==> !KillPidValid(pid)
    ensures r == 404 <==> KillPidValid(pid) && forall i :: 0 <= i < |ps| ==> pid != Some(ps[i].pid)
    ensures r == 200 <==> KillPidValid(pid) && exists i :: 0 <= i < |ps| && pid == Some(ps[i].pid)
    ensures r != 403
  {
    if !KillPidValid(pid) then 400
    else match KillOutcome(ps, pid, None)
      case Killed => 200
      case NotFound => 404
      case Forbidden(_) => 403
  }

  /** POST /processes/:pid/kill. */
  method KillRoute(t: ProcessTable, pid: Option<int>) returns (status: int)
    modifies t
    ensures status == KillStatus(old(t.processes), pid)
    ensures status == 200 ==> t.processes == AfterKill(old(t.processes), pid, None)
    ensures status != 200 ==> t.processes == old(t.processes)
    ensures t.nextPid == old(t.nextPid) && t.simInterval == old(t.simInterval)
  {
    if !KillPidValid(pid) {
      return 400;
    }
    var result := t.KillProcess(pid, None);
    status := match result
      case Killed => 200
      case NotFound => 404
      case Forbidden(_) => 403;
  }

  /** `parseInt(req.query.count) || 150`: NaN and 0 fall back to the default. */
  function ResetCount(parsed: Option<int>): (r: int)
    ensures r != 0
    ensures parsed.Some? && parsed.value != 0 ==> r == parsed.value
    ensures parsed.None? || parsed == Some(0) ==> r == DefaultResetCount
  {
    if parsed.Some? && parsed.value != 0 then parsed.value else DefaultResetCount
  }

  /** POST /mock/reset: the reported count is the new population's size; a negative count empties it. */
  method ResetRoute(t: ProcessTable, parsed: Option<int>, draws: seq<GenDraw>) returns (count: int)
    requires GenDrawsValid(ResetCount(parsed), draws)
    modifies t
    ensures t.processes == Generated(ResetCount(parsed), draws)
    ensures count == |t.processes| == Max0(ResetCount(parsed))
    ensures t.nextPid == old(t.nextPid) && t.simInterval == old(t.simInterval)
  {
    var procs := t.ResetMock(ResetCount(parsed), draws);
    GeneratedShape(ResetCount(parsed), draws);
    count := |procs|;
  }

  /** `parseInt(req.query.ms) || 2000`. */
  function StartInterval(parsed: Option<int>): (r: int)
    ensures r != 0
    ensures parsed.Some? && parsed.value != 0 ==> r == parsed.value
    ensures parsed.None? || parsed == Some(0) ==> r == DefaultIntervalMs
  {
    if parsed.Some? && parsed.value != 0 then parsed.value else DefaultIntervalMs
  }

  /** POST /mock/start: echoes the requested interval even when a running timer keeps its own. */
  method StartRoute(t: ProcessTable, parsed: Option<int>) returns (intervalMs: int)
    modifies t
    ensures intervalMs == StartInterval(parsed)
    ensures t.simInterval == if old(t.simInterval).Some? then old(t.simInterval) else Some(intervalMs)
    ensures t.processes == old(t.processes) && t.nextPid == old(t.nextPid)
  {
    intervalMs := StartInterval(parsed);
    t.StartSimulation(intervalMs);
  }

  /** POST /mock/stop. */
  method StopRoute(t: ProcessTable)
    modifies t
    ensures t.simInterval == None
    ensures t.processes == old(t.processes) && t.nextPid == old(t.nextPid)
  {
    t.StopSimulation();
  }

  /** GET /processes/:pid: 404 exactly when no record carries the pid. */
  method GetProcessRoute(t: ProcessTable, pid: Option<int>) returns (status: int, body: Option<Proc>)
    ensures status == 404 <==> forall i :: 0 <= i < |t.processes| ==> pid != Some(t.processes[i].pid)
    ensures status == 200 <==> body.Some?
    ensures status == 200 || status == 404
    ensures body.Some? ==> Some(body.value.pid) == pid && body.value in t.processes
    ensures body.Some? ==> exists k :: FirstWithPid(t.processes, pid, k) && body.value == t.processes[k]
  {
    body := t.GetProcess(pid);
    status := if body.None? then 404 else 200;
  }
}
