/**
 * The simulated process table of backend/mockProcesses.js: the module-level
 * array of records, the pid counter, the simulation timer flag, and the
 * operations over them.
 *
 * CPU and memory percentages are integer tenths of a percent (the source
 * rounds every value it stores to one decimal), so 1000 stands for 100.0%.
 * Every `Math.random()` draw is a parameter: a `GenDraw` for a new record,
 * a `WalkDraw` per record per step, and a `StepDraw` for a whole step.
 */
module MockProcesses {
  import opened Common
  import opened Strings
  import opened Sorting

  datatype Proc = Proc(
    user: string,
    pid: int,
    cpu: int,      // tenths of a percent
    mem: int,      // tenths of a percent
    vsz: int,
    rss: int,
    tty: string,
    stat: string,
    start: string,
    time: string,
    command: string)

  const SampleCommands: seq<string> := [
    "/usr/bin/node server.js",
    "/usr/bin/python3 app.py",
    "/usr/sbin/sshd -D",
    "/usr/bin/java -jar app.jar",
    "/usr/bin/nginx -g daemon off;",
    "/usr/bin/mysqld",
    "/usr/bin/docker daemon",
    "/usr/bin/bash",
    "/usr/bin/top -b",
    "/usr/bin/redis-server",
    "/sbin/init splash"]

  /** Owners drawn by the initial generator. */
  const GeneratorUsers: seq<string> := ["timur", "alice", "bob", "root", "www-data"]

  /** Owners drawn when the simulation spawns a record: `root` is not among them. */
  const SpawnUsers: seq<string> := ["timur", "alice", "bob", "www-data", "daemon"]

  const FirstPid := 1000
  const MaxPercent := 1000
  /** The step reaps only while the population is above this floor. */
  const ReapFloor := 20

  /** The random values that shape one new record. */
  datatype GenDraw = GenDraw(
    userIdx: int, cmdIdx: int, cpu: int, mem: int, vsz: int, rss: int, port: Option<int>)

  /**
   * What `randomInt` and `(Math.random() * k).toFixed(1)` can produce: cpu up
   * to 30.0%, mem up to `memMax` tenths (40.0% for the generator, 30.0% for a
   * spawn).
   */
  predicate GenDrawInRange(d: GenDraw, users: seq<string>, memMax: int)
  {
    && 0 <= d.userIdx < |users|
    && 0 <= d.cmdIdx < |SampleCommands|
    && 0 <= d.cpu <= 300
    && 0 <= d.mem <= memMax
    && 10000 <= d.vsz <= 500000
    && 1000 <= d.rss <= 200000
    && (d.port.Some? ==> 1000 <= d.port.value <= 9000)
  }

  function Command(d: GenDraw): string
    requires 0 <= d.cmdIdx < |SampleCommands|
  {
    SampleCommands[d.cmdIdx] + (if d.port.Some? then " --port=" + DecimalString(d.port.value) else "")
  }

  /** One record of the initial population. */
  function GeneratedRecord(d: GenDraw, pid: int): Proc
    requires GenDrawInRange(d, GeneratorUsers, 400)
  {
    Proc(GeneratorUsers[d.userIdx], pid, d.cpu, d.mem, d.vsz, d.rss, "?", "S", "10:00", "00:00:10", Command(d))
  }

  /** The record a simulation step spawns. */
  function SpawnedRecord(d: GenDraw, pid: int): (r: Proc)
    requires GenDrawInRange(d, SpawnUsers, 300)
    ensures r.pid == pid && r.user != "root"
    ensures 0 <= r.cpu <= 300 && 0 <= r.mem <= 300
  {
    Proc(SpawnUsers[d.userIdx], pid, d.cpu, d.mem, d.vsz, d.rss, "?", "S", "now", "00:00:00", Command(d))
  }

  function Max0(n: int): nat
  {
    if n > 0 then n else 0
  }

  ghost predicate GenDrawsValid(count: int, draws: seq<GenDraw>)
  {
    && Max0(count) <= |draws|
    && forall i :: 0 <= i < Max0(count) ==> GenDrawInRange(draws[i], GeneratorUsers, 400)
  }

  /** The population `generateMockProcesses(count)` builds. */
  ghost function Generated(count: int, draws: seq<GenDraw>): seq<Proc>
    requires GenDrawsValid(count, draws)
  {
    seq(Max0(count), i requires 0 <= i < Max0(count) => GeneratedRecord(draws[i], FirstPid + i))
  }

  predicate InRange(p: Proc)
  {
    0 <= p.cpu <= MaxPercent && 0 <= p.mem <= MaxPercent
  }

  ghost predicate MetricsInRange(ps: seq<Proc>)
  {
    forall i :: 0 <= i < |ps| ==> InRange(ps[i])
  }

  ghost predicate UniquePids(ps: seq<Proc>)
  {
    forall i, j :: 0 <= i < j < |ps| ==> ps[i].pid != ps[j].pid
  }

  /** Every live pid is below `bound`: the condition under which `nextPid` is fresh. */
  ghost predicate PidsBelow(ps: seq<Proc>, bound: int)
  {
    forall i :: 0 <= i < |ps| ==> ps[i].pid < bound
  }

  /** The generator's loop: one record per iteration with consecutive pids from 1000. */
  method GenerateMockProcesses(count: int, draws: seq<GenDraw>) returns (procs: seq<Proc>)
    requires GenDrawsValid(count, draws)
    ensures procs == Generated(count, draws)
  {
    procs := [];
    var pid := FirstPid;
    var i := 0;
    while i < count
      invariant 0 <= i <= Max0(count)
      invariant pid == FirstPid + i
      invariant |procs| == i
      invariant forall k :: 0 <= k < i ==> procs[k] == GeneratedRecord(draws[k], FirstPid + k)
    {
      procs := procs + [GeneratedRecord(draws[i], pid)];
      pid := pid + 1;
      i := i + 1;
    }
  }

  /** The shape of a freshly generated population. */
  lemma GeneratedShape(count: int, draws: seq<GenDraw>)
    requires GenDrawsValid(count, draws)
    ensures |Generated(count, draws)| == Max0(count)
    ensures forall i :: 0 <= i < Max0(count) ==> Generated(count, draws)[i].pid == FirstPid + i
    ensures forall i :: 0 <= i < Max0(count) ==>
      0 <= Generated(count, draws)[i].cpu <= 300 && 0 <= Generated(count, draws)[i].mem <= 400
    ensures UniquePids(Generated(count, draws)) && MetricsInRange(Generated(count, draws))
  {
  }

  /**
   * Pid freshness after a reset: the counter is left alone, so the new pids
   * 1000 .. 1000+count-1 stay below it exactly when it is at least 1000+count.
   */
  lemma ResetFreshIff(count: int, draws: seq<GenDraw>, nextPid: int)
    requires GenDrawsValid(count, draws)
    ensures PidsBelow(Generated(count, draws), nextPid) <==> count <= 0 || FirstPid + count <= nextPid
  {
    var g := Generated(count, draws);
    if count > 0 && PidsBelow(g, nextPid) {
      assert g[count - 1].pid == FirstPid + count - 1;
    }
  }

  /** `clamp(v, min, max)`: `Math.max(min, Math.min(max, v))`. */
  function Clamp(v: int, lo: int, hi: int): (r: int)
    ensures lo <= hi ==> lo <= r <= hi
    ensures lo <= v <= hi ==> r == v
    ensures lo <= hi && v > hi ==> r == hi
    ensures v < lo ==> r == lo
    ensures lo > hi ==> r == lo
    ensures r == lo || r == hi || r == v
  {
    if v > hi then (if lo > hi then lo else hi) else if v < lo then lo else v
  }

  /** The random values for one record in one step: a walk delta and two optional spikes. */
  datatype WalkDraw = WalkDraw(cpuDelta: int, memDelta: int, cpuSpike: Option<int>, memSpike: Option<int>)

  /** Walk deltas of at most 2.0 and 1.5 points; spikes in [20.0, 100.0] for cpu and [10.0, 80.0] for mem. */
  predicate WalkDrawInRange(d: WalkDraw)
  {
    && -20 <= d.cpuDelta <= 20
    && -15 <= d.memDelta <= 15
    && (d.cpuSpike.Some? ==> 200 <= d.cpuSpike.value <= 1000)
    && (d.memSpike.Some? ==> 100 <= d.memSpike.value <= 800)
  }

  /**
   * The per-record body of the step's `forEach`: clamped walk, then spike
   * overrides. A spike sets the value outright; without one, an in-range
   * value moves toward the delta by at most the delta, and by exactly the
   * delta when that stays in range.
   */
  function WalkRecord(p: Proc, d: WalkDraw): (r: Proc)
    ensures WalkDrawInRange(d) ==> InRange(r)
    ensures r.(cpu := p.cpu, mem := p.mem) == p
    ensures d.cpuSpike.Some? ==> r.cpu == d.cpuSpike.value
    ensures d.memSpike.Some? ==> r.mem == d.memSpike.value
    ensures d.cpuSpike.None? && InRange(p) ==>
      if d.cpuDelta >= 0 then p.cpu <= r.cpu <= p.cpu + d.cpuDelta else p.cpu + d.cpuDelta <= r.cpu <= p.cpu
    ensures d.memSpike.None? && InRange(p) ==>
      if d.memDelta >= 0 then p.mem <= r.mem <= p.mem + d.memDelta else p.mem + d.memDelta <= r.mem <= p.mem
    ensures d.cpuSpike.None? && 0 <= p.cpu + d.cpuDelta <= MaxPercent ==> r.cpu == p.cpu + d.cpuDelta
    ensures d.memSpike.None? && 0 <= p.mem + d.memDelta <= MaxPercent ==> r.mem == p.mem + d.memDelta
    ensures d.cpuSpike.None? && p.cpu + d.cpuDelta > MaxPercent ==> r.cpu == MaxPercent
    ensures d.cpuSpike.None? && p.cpu + d.cpuDelta < 0 ==> r.cpu == 0
    ensures d.memSpike.None? && p.mem + d.memDelta > MaxPercent ==> r.mem == MaxPercent
    ensures d.memSpike.None? && p.mem + d.memDelta < 0 ==> r.mem == 0
  {
    var walked := p.(cpu := Clamp(p.cpu + d.cpuDelta, 0, MaxPercent),
                     mem := Clamp(p.mem + d.memDelta, 0, MaxPercent));
    var cpuSpiked := if d.cpuSpike.Some? then walked.(cpu := d.cpuSpike.value) else walked;
    if d.memSpike.Some? then cpuSpiked.(mem := d.memSpike.value) else cpuSpiked
  }

  ghost function WalkAll(ps: seq<Proc>, ds: seq<WalkDraw>): seq<Proc>
    requires |ds| == |ps|
  {
    seq(|ps|, i requires 0 <= i < |ps| => WalkRecord(ps[i], ds[i]))
  }

  /** All random values of one `simulateStep`. */
  datatype StepDraw = StepDraw(walk: seq<WalkDraw>, spawn: Option<GenDraw>, reap: bool)

  ghost predicate StepDrawValid(d: StepDraw, population: int)
  {
    && |d.walk| == population
    && (forall i :: 0 <= i < |d.walk| ==> WalkDrawInRange(d.walk[i]))
    && (d.spawn.Some? ==> GenDrawInRange(d.spawn.value, SpawnUsers, 300))
  }

  /** The spawn event: the new record goes to the front (`unshift`). */
  function Spawned(ps: seq<Proc>, nextPid: int, spawn: Option<GenDraw>): (r: seq<Proc>)
    requires spawn.Some? ==> GenDrawInRange(spawn.value, SpawnUsers, 300)
    ensures spawn.None? ==> r == ps
    ensures spawn.Some? ==> |r| == |ps| + 1 && r[1..] == ps
                            && r[0].pid == nextPid && r[0].user != "root"
  {
    if spawn.Some? then [SpawnedRecord(spawn.value, nextPid)] + ps else ps
  }

  function NextPidAfter(nextPid: int, spawn: Option<GenDraw>): int
  {
    if spawn.Some? then nextPid + 1 else nextPid
  }

  predicate NotRoot(p: Proc)
  {
    p.user != "root"
  }

  /** The reap event: `splice` the first record in store order whose owner is not `root`. */
  function ReapFirstNonRoot(ps: seq<Proc>): (r: seq<Proc>)
    ensures (forall i :: 0 <= i < |ps| ==> ps[i].user == "root") ==> r == ps
    ensures (exists i :: 0 <= i < |ps| && ps[i].user != "root") ==>
      exists k :: 0 <= k < |ps| && ps[k].user != "root"
        && (forall j :: 0 <= j < k ==> ps[j].user == "root")
        && r == ps[..k] + ps[k + 1..]
  {
    var k := FindIndex(ps, NotRoot);
    if k == -1 then ps else RemoveAt(ps, k)
  }

  /** A reap is attempted only above the floor and when its coin comes up. */
  function Reaped(ps: seq<Proc>, coin: bool): (r: seq<Proc>)
    ensures !(|ps| > ReapFloor && coin) ==> r == ps
    ensures |ps| > ReapFloor && coin ==> r == ReapFirstNonRoot(ps)
    ensures r != ps ==> |ps| > ReapFloor && coin && |r| == |ps| - 1
  {
    if |ps| > ReapFloor && coin then ReapFirstNonRoot(ps) else ps
  }

  /** The store after one `simulateStep`: walk every record, maybe spawn, maybe reap. */
  ghost function StepProcesses(ps: seq<Proc>, nextPid: int, d: StepDraw): seq<Proc>
    requires StepDrawValid(d, |ps|)
  {
    Reaped(Spawned(WalkAll(ps, d.walk), nextPid, d.spawn), d.reap)
  }

  /** Removing records keeps every remaining record's metrics and pid bound. */
  lemma ReapedKeeps(ps: seq<Proc>, coin: bool, bound: int)
    ensures MetricsInRange(ps) ==> MetricsInRange(Reaped(ps, coin))
    ensures UniquePids(ps) ==> UniquePids(Reaped(ps, coin))
    ensures PidsBelow(ps, bound) ==> PidsBelow(Reaped(ps, coin), bound)
  {
    var k := FindIndex(ps, NotRoot);
    if |ps| > ReapFloor && coin && k != -1 {
      var r := RemoveAt(ps, k);
      assert forall j :: 0 <= j < |r| ==> r[j] == ps[if j < k then j else j + 1];
    }
  }

  /** After any step every record's cpu and mem lie in [0, 100.0], whatever they were before. */
  lemma StepMetricsInRange(ps: seq<Proc>, nextPid: int, d: StepDraw)
    requires StepDrawValid(d, |ps|)
    ensures MetricsInRange(StepProcesses(ps, nextPid, d))
  {
    var w := WalkAll(ps, d.walk);
    var s := Spawned(w, nextPid, d.spawn);
    assert MetricsInRange(w);
    assert MetricsInRange(s) by {
      if d.spawn.Some? {
        forall i | 0 <= i < |s| ensures InRange(s[i]) {
          if i > 0 { assert s[i] == w[i - 1]; }
        }
      }
    }
    ReapedKeeps(s, d.reap, NextPidAfter(nextPid, d.spawn));
  }

  /** While the counter is fresh, a step keeps pids unique and the counter fresh. */
  lemma StepKeepsPidsFresh(ps: seq<Proc>, nextPid: int, d: StepDraw)
    requires StepDrawValid(d, |ps|)
    requires UniquePids(ps) && PidsBelow(ps, nextPid)
    ensures UniquePids(StepProcesses(ps, nextPid, d))
    ensures PidsBelow(StepProcesses(ps, nextPid, d), NextPidAfter(nextPid, d.spawn))
  {
    var w := WalkAll(ps, d.walk);
    var s := Spawned(w, nextPid, d.spawn);
    var bound := NextPidAfter(nextPid, d.spawn);
    assert forall i :: 0 <= i < |w| ==> w[i].pid == ps[i].pid;
    assert UniquePids(s) && PidsBelow(s, bound) by {
      if d.spawn.Some? {
        assert forall i :: 1 <= i < |s| ==> s[i] == w[i - 1];
      }
    }
    ReapedKeeps(s, d.reap, bound);
  }

  /**
   * Reset leaves the counter behind: resetting to more records than the
   * counter has passed lets the next spawn reuse a live pid.
   */
  lemma ResetThenSpawnDuplicatesPid(count: int, draws: seq<GenDraw>, nextPid: int, d: StepDraw)
    requires GenDrawsValid(count, draws)
    requires FirstPid <= nextPid < FirstPid + count
    requires StepDrawValid(d, count) && d.spawn.Some? && !d.reap
    ensures !UniquePids(StepProcesses(Generated(count, draws), nextPid, d))
  {
    var g := Generated(count, draws);
    var s := StepProcesses(g, nextPid, d);
    var k := nextPid - FirstPid;
    assert WalkAll(g, d.walk)[k].pid == g[k].pid == nextPid;
    assert s[0].pid == nextPid && s[k + 1].pid == nextPid;
  }

  /** Largest pid in a non-empty store. */
  function MaxPid(ps: seq<Proc>): (r: int)
    requires |ps| > 0
    ensures forall i :: 0 <= i < |ps| ==> ps[i].pid <= r
    ensures exists i :: 0 <= i < |ps| && ps[i].pid == r
  {
    if |ps| == 1 then ps[0].pid
    else
      var m := MaxPid(ps[1..]);
      assert forall i :: 1 <= i < |ps| ==> ps[i] == ps[1..][i - 1];
      if ps[0].pid > m then ps[0].pid else m
  }

  /** The counter's start value: one past the largest loaded pid, or 1000 for an empty store. */
  function InitialNextPid(ps: seq<Proc>): (r: int)
    ensures PidsBelow(ps, r)
    ensures ps == [] ==> r == FirstPid
    ensures ps != [] ==> exists i :: 0 <= i < |ps| && ps[i].pid == r - 1
  {
    if |ps| > 0 then MaxPid(ps) + 1 else FirstPid
  }

  function PidKey(p: Proc): Key
  {
    Num(p.pid)
  }

  /** `getProcesses`' ordering: a copy sorted by pid ascending. */
  function ListByPid(ps: seq<Proc>): (r: seq<Proc>)
    ensures multiset(r) == multiset(ps)
    ensures forall i, j :: 0 <= i < j < |r| ==> r[i].pid <= r[j].pid
  {
    SortBySorted(ps, PidKey, false);
    var r := SortBy(ps, PidKey, false);
    assert forall i, j :: 0 <= i < j < |r| ==> InOrder(PidKey(r[i]), PidKey(r[j]), false);
    r
  }

  function MatchesPid(pid: Option<int>): Proc -> bool
  {
    (p: Proc) => pid == Some(p.pid)
  }

  /** `k` is the index of the first record carrying `pid`. */
  ghost predicate FirstWithPid(ps: seq<Proc>, pid: Option<int>, k: int)
  {
    0 <= k < |ps| && Some(ps[k].pid) == pid && forall j :: 0 <= j < k ==> Some(ps[j].pid) != pid
  }

  /** `processes.find(p => p.pid === pid)`; a pid that parsed to NaN matches nothing. */
  function FindByPid(ps: seq<Proc>, pid: Option<int>): (r: Option<Proc>)
    ensures r.None? <==> forall i :: 0 <= i < |ps| ==> pid != Some(ps[i].pid)
    ensures r.Some? ==> Some(r.value.pid) == pid && r.value in ps
    ensures r.Some? ==> exists k :: FirstWithPid(ps, pid, k) && r.value == ps[k]
  {
    Find(ps, MatchesPid(pid))
  }

  datatype KillResult = Killed | NotFound | Forbidden(owner: string)

  /** The kill permission rule: a falsy requester (null or "") or `root` may kill anything, others only their own. */
  predicate MayKill(requester: Option<string>, owner: string)
  {
    !(requester.Some? && requester.value != "" && owner != requester.value && requester.value != "root")
  }

  /** The outcome of `killProcess(pid, requester)`, decided on the first record with that pid. */
  function KillOutcome(ps: seq<Proc>, pid: Option<int>, requester: Option<string>): (r: KillResult)
    ensures r == NotFound <==> forall i :: 0 <= i < |ps| ==> pid != Some(ps[i].pid)
    ensures r.Forbidden? ==> requester.Some? && requester.value != "root" && requester.value != ""
                             && requester != Some(r.owner)
    ensures r.Forbidden? ==> exists i :: 0 <= i < |ps| && Some(ps[i].pid) == pid && ps[i].user == r.owner
    ensures r == Killed ==> exists i :: 0 <= i < |ps| && Some(ps[i].pid) == pid
                                         && MayKill(requester, ps[i].user)
    ensures r != NotFound ==> exists k :: FirstWithPid(ps, pid, k)
                                            && (r == Killed <==> MayKill(requester, ps[k].user))
                                            && (r.Forbidden? ==> r.owner == ps[k].user)
  {
    var idx := FindIndex(ps, MatchesPid(pid));
    if idx == -1 then NotFound
    else if !MayKill(requester, ps[idx].user) then Forbidden(ps[idx].user)
    else Killed
  }

  /** The store after `killProcess`: on success exactly the first record with that pid is spliced out. */
  function AfterKill(ps: seq<Proc>, pid: Option<int>, requester: Option<string>): (r: seq<Proc>)
    ensures KillOutcome(ps, pid, requester) != Killed ==> r == ps
    ensures KillOutcome(ps, pid, requester) == Killed ==>
      |r| == |ps| - 1 && exists k :: FirstWithPid(ps, pid, k) && r == ps[..k] + ps[k + 1..]
  {
    var idx := FindIndex(ps, MatchesPid(pid));
    if KillOutcome(ps, pid, requester) == Killed then
      assert FirstWithPid(ps, pid, idx);
      RemoveAt(ps, idx)
    else ps
  }

  /** With unique pids the owner, and `root`, may always kill a live record; anyone else is refused. */
  lemma KillPermission(ps: seq<Proc>, i: int, requester: string)
    requires 0 <= i < |ps| && UniquePids(ps)
    ensures requester == ps[i].user || requester == "root" ==>
      KillOutcome(ps, Some(ps[i].pid), Some(requester)) == Killed
    ensures requester != ps[i].user && requester != "root" && requester != "" ==>
      KillOutcome(ps, Some(ps[i].pid), Some(requester)) == Forbidden(ps[i].user)
  {
    var idx := FindIndex(ps, MatchesPid(Some(ps[i].pid)));
    assert idx == i;
  }

  /** Three records owned by root, alice, alice: bob may not kill pid 2, alice may, leaving pids 1 and 3. */
  lemma KillScenario(r1: Proc, r2: Proc, r3: Proc)
    requires r1.pid == 1 && r1.user == "root"
    requires r2.pid == 2 && r2.user == "alice"
    requires r3.pid == 3 && r3.user == "alice"
    ensures KillOutcome([r1, r2, r3], Some(2), Some("bob")) == Forbidden("alice")
    ensures AfterKill([r1, r2, r3], Some(2), Some("bob")) == [r1, r2, r3]
    ensures KillOutcome([r1, r2, r3], Some(2), Some("alice")) == Killed
    ensures AfterKill([r1, r2, r3], Some(2), Some("alice")) == [r1, r3]
  {
    var ps := [r1, r2, r3];
    var idx := FindIndex(ps, MatchesPid(Some(2)));
    assert !MatchesPid(Some(2))(ps[0]) && MatchesPid(Some(2))(ps[1]);
    assert idx == 1;
    assert !MayKill(Some("bob"), "alice") && MayKill(Some("alice"), "alice");
    assert RemoveAt(ps, 1) == [r1, r3];
  }

  /** Splicing out the record at `k` from a store with unique pids leaves no record with its pid. */
  lemma RemoveUniquePid(ps: seq<Proc>, pid: Option<int>, k: int)
    requires UniquePids(ps) && FirstWithPid(ps, pid, k)
    ensures forall q :: q in ps[..k] + ps[k + 1..] ==> pid != Some(q.pid)
    ensures UniquePids(ps[..k] + ps[k + 1..])
  {
    var r := ps[..k] + ps[k + 1..];
    assert forall j :: 0 <= j < |r| ==> r[j] == ps[if j < k then j else j + 1];
  }

  /** With unique pids, a killed pid is gone: a later lookup finds nothing. */
  lemma KillThenLookupNotFound(ps: seq<Proc>, pid: Option<int>, requester: Option<string>)
    requires UniquePids(ps)
    requires KillOutcome(ps, pid, requester) == Killed
    ensures FindByPid(AfterKill(ps, pid, requester), pid).None?
    ensures UniquePids(AfterKill(ps, pid, requester))
  {
    var r := AfterKill(ps, pid, requester);
    var k :| FirstWithPid(ps, pid, k) && r == ps[..k] + ps[k + 1..];
    RemoveUniquePid(ps, pid, k);
  }

  /**
   * The module state of backend/mockProcesses.js. `simInterval` holds the
   * interval passed to `setInterval`, or None when the handle is `null`.
   */
  class ProcessTable {
    var processes: seq<Proc>
    var nextPid: int
    var simInterval: Option<int>

    /** Module load: the stored (or first-run generated) population, the counter past its largest pid. */
    constructor (loaded: seq<Proc>)
      ensures processes == loaded && simInterval == None
      ensures nextPid == InitialNextPid(loaded) && PidsBelow(processes, nextPid)
    {
      processes := loaded;
      nextPid := InitialNextPid(loaded);
      simInterval := None;
    }

    /** The step's `processes.forEach(...)`: every record walked in place, in store order. */
    method WalkInPlace(walk: seq<WalkDraw>)
      requires |walk| == |processes|
      modifies this
      ensures processes == WalkAll(old(processes), walk)
      ensures nextPid == old(nextPid) && simInterval == old(simInterval)
    {
      var i := 0;
      while i < |processes|
        invariant 0 <= i <= |processes| == |old(processes)|
        invariant forall k :: 0 <= k < i ==> processes[k] == WalkRecord(old(processes)[k], walk[k])
        invariant forall k :: i <= k < |processes| ==> processes[k] == old(processes)[k]
        invariant nextPid == old(nextPid) && simInterval == old(simInterval)
      {
        processes := processes[i := WalkRecord(processes[i], walk[i])];
        i := i + 1;
      }
    }

    /** `simulateStep`: the walk loop over every record, then the spawn, then the reap. */
    method SimulateStep(d: StepDraw)
      requires StepDrawValid(d, |processes|)
      modifies this
      ensures processes == StepProcesses(old(processes), old(nextPid), d)
      ensures nextPid == NextPidAfter(old(nextPid), d.spawn) && simInterval == old(simInterval)
      ensures MetricsInRange(processes)
      ensures UniquePids(old(processes)) && PidsBelow(old(processes), old(nextPid)) ==>
                UniquePids(processes) && PidsBelow(processes, nextPid)
    {
      ghost var ps0, np0 := processes, nextPid;
      WalkInPlace(d.walk);

      if d.spawn.Some? {
        var proc := SpawnedRecord(d.spawn.value, nextPid);
        nextPid := nextPid + 1;
        processes := [proc] + processes;
      }

      if |processes| > ReapFloor && d.reap {
        var idx := FindIndex(processes, NotRoot);
        if idx != -1 {
          processes := RemoveAt(processes, idx);
        }
      }

      StepMetricsInRange(ps0, np0, d);
      if UniquePids(ps0) && PidsBelow(ps0, np0) {
        StepKeepsPidsFresh(ps0, np0, d);
      }
    }

    /** `startSimulation(intervalMs)`: does nothing while a timer is live. */
    method StartSimulation(intervalMs: int)
      modifies this
      ensures simInterval == if old(simInterval).Some? then old(simInterval) else Some(intervalMs)
      ensures processes == old(processes) && nextPid == old(nextPid)
    {
      if simInterval.Some? {
        return;
      }
      simInterval := Some(intervalMs);
    }

    /** `stopSimulation()`: does nothing while stopped. */
    method StopSimulation()
      modifies this
      ensures simInterval == None
      ensures processes == old(processes) && nextPid == old(nextPid)
    {
      if simInterval.None? {
        return;
      }
      simInterval := None;
    }

    function IsSimulationRunning(): (r: bool)
      reads this
      ensures r <==> simInterval != None
    {
      simInterval.Some?
    }

    /** `getProcesses()`: a sorted copy; the store itself is not touched. */
    method GetProcesses() returns (r: seq<Proc>)
      ensures multiset(r) == multiset(processes)
      ensures forall i, j :: 0 <= i < j < |r| ==> r[i].pid <= r[j].pid
      ensures r == ListByPid(processes)
    {
      r := ListByPid(processes);
    }

    function GetProcess(pid: Option<int>): (r: Option<Proc>)
      reads this
      ensures r.None? <==> forall i :: 0 <= i < |processes| ==> pid != Some(processes[i].pid)
      ensures r.Some? ==> Some(r.value.pid) == pid && r.value in processes
      ensures r.Some? ==> exists k :: FirstWithPid(processes, pid, k) && r.value == processes[k]
    {
      FindByPid(processes, pid)
    }

    /** `killProcess(pid, requesterUser)`; the persistence call after a removal is not modelled. */
    method KillProcess(pid: Option<int>, requester: Option<string>) returns (r: KillResult)
      modifies this
      ensures r == KillOutcome(old(processes), pid, requester)
      ensures processes == AfterKill(old(processes), pid, requester)
      ensures nextPid == old(nextPid) && simInterval == old(simInterval)
      ensures UniquePids(old(processes)) ==> UniquePids(processes)
      ensures PidsBelow(old(processes), nextPid) ==> PidsBelow(processes, nextPid)
    {
      var idx := FindIndex(processes, MatchesPid(pid));
      if idx == -1 {
        return NotFound;
      }
      var proc := processes[idx];
      if !MayKill(requester, proc.user) {
        return Forbidden(proc.user);
      }
      ghost var ps0 := processes;
      processes := RemoveAt(processes, idx);
      assert forall j :: 0 <= j < |processes| ==> processes[j] == ps0[if j < idx then j else j + 1];
      r := Killed;
    }

    /** `resetMock(count)`: a fresh population from pid 1000; the counter is NOT reset. */
    method ResetMock(count: int, draws: seq<GenDraw>) returns (r: seq<Proc>)
      requires GenDrawsValid(count, draws)
      modifies this
      ensures processes == Generated(count, draws) && r == processes
      ensures nextPid == old(nextPid) && simInterval == old(simInterval)
      ensures UniquePids(processes)
      ensures PidsBelow(processes, nextPid) <==> count <= 0 || FirstPid + count <= nextPid
    {
      processes := GenerateMockProcesses(count, draws);
      GeneratedShape(count, draws);
      ResetFreshIff(count, draws, nextPid);
      r := processes;
    }
  }
}
