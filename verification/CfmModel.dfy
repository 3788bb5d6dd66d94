/** One machine of the far-memory cluster as a value: who owns which CPU, how much memory is promised, and
    how much of it each workload may keep local. */
module CfmModel {
  import opened Basics

  /** What a workload's class fixes. */
  datatype WorkloadClass = WorkloadClass(name: string, cpuReq: nat, idealMem: real, minMem: real)

  /** A started workload; `minMem` is its share under set_min_ratio. */
  datatype Workload = Workload(idd: nat, cls: WorkloadClass, minMem: real)

  /** What checkin fixes. A uniformRatio of 0 selects the variable policy. */
  datatype Config = Config(totalCpus: nat, totalMem: real, remoteMem: bool, uniformRatio: real,
      variableRatios: map<string, real>)

  /** Machine: free_cpus, alloc_mem, min_mem_sum, using_remote_mem, unpinned_cpus, cpu_assignments, executing, finished,
      and the mutable attributes of the workloads by idd: pinned_cpus and the container's ratio. */
  datatype State = State(cfg: Config, freeCpus: int, allocMem: real, minMemSum: real, usingRemote: bool,
    unpinned: set<nat>, owner: map<nat, Option<nat>>, executing: seq<Workload>, finished: seq<Workload>,
    pinned: map<nat, set<nat>>, ratio: map<nat, real>)

  function MinMem(cfg: Config, c: WorkloadClass): real {
    if c.name in cfg.variableRatios then cfg.variableRatios[c.name] * c.idealMem else c.minMem
  }

  predicate ClassOk(cfg: Config, c: WorkloadClass) {
    0.0 < c.idealMem && 0.0 <= MinMem(cfg, c) <= c.idealMem
  }

  function Min(a: real, b: real): real { if a < b then a else b }
  function Max(a: real, b: real): real { if a > b then a else b }

  /** min(1, total / ideal), with the ZeroDivisionError branch. */
  function LocalRatio(total: real, ideal: real): real {
    if ideal == 0.0 then 1.0 else Min(1.0, total / ideal)
  }

  // ----- Sums over workloads

  function IdealOf(w: Workload): real { w.cls.idealMem }
  function MinOf(w: Workload): real { w.minMem }

  function ShareOf(ratio: map<nat, real>): Workload -> real {
    (w: Workload) => if w.idd in ratio then ratio[w.idd] * w.cls.idealMem else 0.0
  }

  function Total(f: Workload -> real, ws: seq<Workload>): real
    decreases |ws|
  {
    if ws == [] then 0.0 else Total(f, ws[..|ws| - 1]) + f(ws[|ws| - 1])
  }

  lemma TotalPush(f: Workload -> real, ws: seq<Workload>, w: Workload)
    ensures Total(f, ws + [w]) == Total(f, ws) + f(w)
  {
    assert (ws + [w])[..|ws|] == ws;
  }

  lemma {:induction false} TotalCut(f: Workload -> real, ws: seq<Workload>, k: nat)
    requires k < |ws|
    ensures Total(f, Cut(ws, k)) == Total(f, ws) - f(ws[k])
    decreases |ws|
  {
    var n := |ws| - 1;
    if k == n {
      assert Cut(ws, k) == ws[..n];
    } else {
      TotalCut(f, ws[..n], k);
      assert Cut(ws, k) == Cut(ws[..n], k) + [ws[n]];
      TotalPush(f, Cut(ws[..n], k), ws[n]);
    }
  }

  lemma {:induction false} TotalBounds(f: Workload -> real, g: Workload -> real, ws: seq<Workload>)
    requires forall w :: w in ws ==> 0.0 <= f(w) <= g(w)
    ensures 0.0 <= Total(f, ws) <= Total(g, ws)
    decreases |ws|
  {
    if ws != [] { TotalBounds(f, g, ws[..|ws| - 1]); }
  }

  // ----- What holds of a machine between calls

  /** A CPU is free or assigned, and free_cpus counts the free ones. */
  ghost predicate FreeOk(s: State) {
    && (forall c: nat :: c in s.owner <==> c < s.cfg.totalCpus)
    && (forall c: nat :: c in s.unpinned <==> c in s.owner && s.owner[c] == None)
    && s.freeCpus == |s.unpinned|
  }

  ghost predicate NamesOk(s: State) {
    && (forall i, j :: 0 <= i < j < |s.executing| ==> s.executing[i].idd != s.executing[j].idd)
    && (forall w :: w in s.executing ==> w.idd in s.pinned && |s.pinned[w.idd]| == w.cls.cpuReq)
  }

  predicate Holds(s: State, w: Workload, c: nat) {
    w in s.executing && w.idd in s.pinned && c in s.pinned[w.idd]
  }

  ghost predicate Held(s: State, c: nat, idd: nat) {
    exists w :: Holds(s, w, c) && w.idd == idd
  }

  /** A CPU is assigned to a workload exactly when that workload is running and pinned to it. */
  ghost predicate PinsOk(s: State) {
    && (forall w, c: nat :: Holds(s, w, c) ==> c in s.owner && s.owner[c] == Some(w.idd))
    && (forall c: nat :: c in s.owner && s.owner[c].Some? ==> Held(s, c, s.owner[c].value))
  }

  /** The CPUs are split between the free ones and the pinned sets of the running workloads. */
  ghost predicate CpusOk(s: State) {
    FreeOk(s) && NamesOk(s) && PinsOk(s)
  }

  ghost predicate TotalsOk(s: State) {
    && s.allocMem == Total(IdealOf, s.executing)
    && s.minMemSum == Total(MinOf, s.executing)
    && (forall w :: w in s.executing ==> ClassOk(s.cfg, w.cls) && w.minMem == MinMem(s.cfg, w.cls))
  }

  /** While more memory is promised than there is, the last CPU is left to the reclaimer. */
  ghost predicate ReclaimerOk(s: State) {
    && s.cfg.totalCpus > 0
    && s.usingRemote == (s.allocMem > s.cfg.totalMem)
    && (s.usingRemote ==> s.cfg.totalCpus - 1 in s.unpinned)
  }

  /** What the asserts of execute and of the two shrink methods demand. */
  predicate PolicyAllows(cfg: Config, alloc: real, minSum: real) {
    if !cfg.remoteMem then alloc <= cfg.totalMem
    else if cfg.uniformRatio != 0.0 then LocalRatio(cfg.totalMem, alloc) >= cfg.uniformRatio
    else minSum <= cfg.totalMem
  }

  ghost predicate SharesOk(cfg: Config, ws: seq<Workload>, ratio: map<nat, real>) {
    && (forall w :: w in ws ==> w.idd in ratio)
    && if !cfg.remoteMem then forall w :: w in ws ==> ratio[w.idd] == 1.0
       else if cfg.uniformRatio != 0.0 then forall w :: w in ws ==>
         ratio[w.idd] == LocalRatio(cfg.totalMem, Total(IdealOf, ws))
       else
         && (forall w :: w in ws ==> w.minMem <= ShareOf(ratio)(w) <= w.cls.idealMem)
         && Total(ShareOf(ratio), ws) == Min(Total(IdealOf, ws), cfg.totalMem)
  }

  predicate ConfigOk(cfg: Config) {
    cfg.totalCpus > 0 && cfg.totalMem >= 0.0 && 0.0 <= cfg.uniformRatio <= 1.0
  }

  ghost predicate StateOk(s: State) {
    && ConfigOk(s.cfg) && CpusOk(s) && TotalsOk(s) && ReclaimerOk(s)
    && PolicyAllows(s.cfg, s.allocMem, s.minMemSum) && SharesOk(s.cfg, s.executing, s.ratio)
  }

  /** After checkin. */
  function CheckedIn(cfg: Config): State {
    State(cfg, cfg.totalCpus, 0.0, 0.0, false, Cpus(cfg.totalCpus), map c | c in Cpus(cfg.totalCpus) :: None, [], [],
      map[], map[])
  }

  /** set(range(n)). */
  function Cpus(n: nat): (r: set<nat>)
    ensures |r| == n && forall c: nat :: c in r <==> c < n
  {
    if n == 0 then {} else Cpus(n - 1) + {n - 1}
  }

  lemma CheckedInOk(cfg: Config)
    requires ConfigOk(cfg)
    ensures StateOk(CheckedIn(cfg))
  {
  }

  /** No two running workloads share a CPU, and none has a free one. */
  lemma PinnedApart(s: State, v: Workload, w: Workload, c: nat)
    requires CpusOk(s) && Holds(s, v, c)
    ensures c !in s.unpinned && (Holds(s, w, c) ==> w.idd == v.idd)
  {}

  // ----- The steps

  /** check_reclaimer_cpu, when workload `idd` holds the reclaimer CPU and `r` replaces it. */
  function MovedOff(s: State, idd: nat, r: nat): State
    requires idd in s.pinned && s.cfg.totalCpus > 0
  {
    var reclaimer := s.cfg.totalCpus - 1;
    s.(owner := s.owner[reclaimer := None][r := Some(idd)], unpinned := s.unpinned - {r} + {reclaimer},
       pinned := s.pinned[idd := s.pinned[idd] - {reclaimer} + {r}])
  }

  lemma MovedOffFree(s: State, w: Workload, r: nat)
    requires CpusOk(s) && s.cfg.totalCpus > 0 && w in s.executing
    requires s.owner[s.cfg.totalCpus - 1] == Some(w.idd) && r in s.unpinned
    ensures s.cfg.totalCpus - 1 in s.pinned[w.idd] && r < s.cfg.totalCpus - 1 && r !in s.pinned[w.idd]
    ensures FreeOk(MovedOff(s, w.idd, r)) && NamesOk(MovedOff(s, w.idd, r))
  {
    hide NamesOk, MovedOff;
    ReclaimerPinned(s, w, r);
    MovedOffCount(s, w, r);
    MovedOffNames(s, w, r);
  }

  lemma ReclaimerPinned(s: State, w: Workload, r: nat)
    requires CpusOk(s) && s.cfg.totalCpus > 0 && w in s.executing
    requires s.owner[s.cfg.totalCpus - 1] == Some(w.idd) && r in s.unpinned
    ensures w.idd in s.pinned && s.cfg.totalCpus - 1 in s.pinned[w.idd] && r < s.cfg.totalCpus - 1
    ensures r !in s.pinned[w.idd]
  {
    var reclaimer := s.cfg.totalCpus - 1;
    assert reclaimer in s.owner && Held(s, reclaimer, w.idd);
    assert !Holds(s, w, r);
  }

  lemma MovedOffCount(s: State, w: Workload, r: nat)
    requires s.cfg.totalCpus > 0 && w in s.executing && w.idd in s.pinned
    requires r in s.unpinned && s.cfg.totalCpus - 1 in s.pinned[w.idd] && r !in s.pinned[w.idd]
    requires r < s.cfg.totalCpus - 1
    requires FreeOk(s) && s.owner[s.cfg.totalCpus - 1] == Some(w.idd)
    ensures FreeOk(MovedOff(s, w.idd, r))
  {
    assert s.cfg.totalCpus - 1 !in s.unpinned;
  }

  lemma MovedOffNames(s: State, w: Workload, r: nat)
    requires s.cfg.totalCpus > 0 && w in s.executing && w.idd in s.pinned
    requires r in s.unpinned && s.cfg.totalCpus - 1 in s.pinned[w.idd] && r !in s.pinned[w.idd]
    requires r < s.cfg.totalCpus - 1
    requires NamesOk(s)
    ensures NamesOk(MovedOff(s, w.idd, r))
  {
    assert |MovedOff(s, w.idd, r).pinned[w.idd]| == |s.pinned[w.idd]|;
  }

  lemma MovedOffPins(s: State, w: Workload, r: nat)
    requires CpusOk(s) && s.cfg.totalCpus > 0 && w in s.executing
    requires s.owner[s.cfg.totalCpus - 1] == Some(w.idd) && r in s.unpinned
    requires r < s.cfg.totalCpus - 1
    ensures PinsOk(MovedOff(s, w.idd, r))
  {
    assert s.owner[r] == None;
    hide FreeOk;
    var s' := MovedOff(s, w.idd, r);
    forall c: nat | c in s'.owner && s'.owner[c].Some? ensures Held(s', c, s'.owner[c].value) {
      if c == r {
        assert Holds(s', w, c);
      } else {
        var u :| Holds(s, u, c) && u.idd == s.owner[c].value;
        assert Holds(s', u, c);
      }
    }
    forall u, c: nat | Holds(s', u, c) ensures c in s'.owner && s'.owner[c] == Some(u.idd) {
      if c != r { assert Holds(s, u, c); }
    }
  }

  lemma MovedOffOk(s: State, w: Workload, r: nat)
    requires CpusOk(s) && s.cfg.totalCpus > 0 && w in s.executing
    requires s.owner[s.cfg.totalCpus - 1] == Some(w.idd) && r in s.unpinned
    ensures s.cfg.totalCpus - 1 in s.pinned[w.idd] && r < s.cfg.totalCpus - 1
    ensures CpusOk(MovedOff(s, w.idd, r)) && s.cfg.totalCpus - 1 in MovedOff(s, w.idd, r).unpinned
  {
    hide PinsOk;
    MovedOffFree(s, w, r);
    MovedOffPins(s, w, r);
  }

  /** execute, once the CPUs are chosen. */
  function Started(s: State, w: Workload, cpus: set<nat>): State {
    s.(unpinned := s.unpinned - cpus, owner := map c | c in s.owner :: if c in cpus then Some(w.idd) else s.owner[c],
       pinned := s.pinned[w.idd := cpus], freeCpus := s.freeCpus - w.cls.cpuReq, executing := s.executing + [w],
       minMemSum := s.minMemSum + w.minMem)
  }

  predicate Runs(ws: seq<Workload>, idd: nat) {
    exists i :: 0 <= i < |ws| && ws[i].idd == idd
  }

  lemma StartedOk(s: State, w: Workload, cpus: set<nat>)
    requires CpusOk(s) && cpus <= s.unpinned && |cpus| == w.cls.cpuReq && !Runs(s.executing, w.idd)
    ensures CpusOk(Started(s, w, cpus))
  {
    hide FreeOk, NamesOk, PinsOk;
    StartedFree(s, w, cpus);
    StartedNames(s, w, cpus);
    StartedPins(s, w, cpus);
  }

  lemma StartedFree(s: State, w: Workload, cpus: set<nat>)
    requires FreeOk(s) && cpus <= s.unpinned && |cpus| == w.cls.cpuReq
    ensures FreeOk(Started(s, w, cpus)) && forall c :: c in cpus ==> c in s.owner && s.owner[c] == None
  {
    assert |Started(s, w, cpus).unpinned| == |s.unpinned| - |cpus|;
  }

  lemma StartedNames(s: State, w: Workload, cpus: set<nat>)
    requires NamesOk(s) && |cpus| == w.cls.cpuReq && !Runs(s.executing, w.idd)
    ensures NamesOk(Started(s, w, cpus))
    ensures forall v :: v in s.executing ==> v.idd != w.idd
  {}

  lemma StartedPins(s: State, w: Workload, cpus: set<nat>)
    requires PinsOk(s) && (forall c :: c in cpus ==> c in s.owner && s.owner[c] == None)
    requires forall v :: v in s.executing ==> v.idd != w.idd
    ensures PinsOk(Started(s, w, cpus))
  {
    var s' := Started(s, w, cpus);
    assert forall v :: v in s'.executing <==> v in s.executing || v == w;
    forall c: nat | c in s'.owner && s'.owner[c].Some? ensures Held(s', c, s'.owner[c].value) {
      if c in cpus {
        assert Holds(s', w, c);
      } else {
        var u :| Holds(s, u, c) && u.idd == s.owner[c].value;
        assert Holds(s', u, c);
      }
    }
    forall v, c: nat | Holds(s', v, c) ensures c in s'.owner && s'.owner[c] == Some(v.idd) {
      if v != w { assert Holds(s, v, c); }
    }
  }

  /** One turn of the loop of check_finished. */
  function Retired(s: State, k: nat): State
    requires k < |s.executing| && s.executing[k].idd in s.pinned
  {
    var w := s.executing[k];
    var cpus := s.pinned[w.idd];
    s.(unpinned := s.unpinned + cpus, owner := map c | c in s.owner :: if c in cpus then None else s.owner[c],
       freeCpus := s.freeCpus + w.cls.cpuReq, allocMem := s.allocMem - w.cls.idealMem,
       minMemSum := s.minMemSum - w.minMem,
       executing := Cut(s.executing, k))
  }

  lemma CutMembers(ws: seq<Workload>, k: nat)
    requires k < |ws| && forall i, j :: 0 <= i < j < |ws| ==> ws[i].idd != ws[j].idd
    ensures forall v :: v in Cut(ws, k) <==> v in ws && v.idd != ws[k].idd
    ensures forall i, j :: 0 <= i < j < |Cut(ws, k)| ==> Cut(ws, k)[i].idd != Cut(ws, k)[j].idd
  {
    var c := Cut(ws, k);
    assert forall i :: 0 <= i < |c| ==> c[i] == if i < k then ws[i] else ws[i + 1];
    forall v | v in ws && v.idd != ws[k].idd ensures v in c {
      var i :| 0 <= i < |ws| && ws[i] == v;
      assert c[if i < k then i else i - 1] == v;
    }
  }

  lemma RetiredFree(s: State, k: nat)
    requires CpusOk(s) && k < |s.executing|
    ensures FreeOk(Retired(s, k)) && NamesOk(Retired(s, k))
  {
    hide FreeOk, NamesOk, PinsOk, Cut;
    var w := s.executing[k];
    OwnPins(s, k);
    RetiredNames(s, k);
    RetiredCount(s, k);
  }

  lemma OwnPins(s: State, k: nat)
    requires NamesOk(s) && PinsOk(s) && k < |s.executing|
    ensures var w := s.executing[k];
      && w.idd in s.pinned && |s.pinned[w.idd]| == w.cls.cpuReq
      && forall c :: c in s.pinned[w.idd] ==> c in s.owner && s.owner[c] == Some(w.idd)
  {
    var w := s.executing[k];
    forall c | c in s.pinned[w.idd] ensures c in s.owner && s.owner[c] == Some(w.idd) { assert Holds(s, w, c); }
  }

  lemma RetiredNames(s: State, k: nat)
    requires NamesOk(s) && k < |s.executing| && s.executing[k].idd in s.pinned
    ensures NamesOk(Retired(s, k))
  {
    hide Cut;
    CutMembers(s.executing, k);
  }

  lemma RetiredCount(s: State, k: nat)
    requires FreeOk(s) && k < |s.executing|
    requires var w := s.executing[k];
      && w.idd in s.pinned && |s.pinned[w.idd]| == w.cls.cpuReq
      && forall c :: c in s.pinned[w.idd] ==> c in s.owner && s.owner[c] == Some(w.idd)
    ensures FreeOk(Retired(s, k))
  {
    hide Cut;
    assert s.pinned[s.executing[k].idd] !! s.unpinned;
  }

  lemma RetiredPins(s: State, k: nat)
    requires PinsOk(s) && k < |s.executing| && s.executing[k].idd in s.pinned
    requires forall v :: v in Cut(s.executing, k) <==> v in s.executing && v.idd != s.executing[k].idd
    ensures PinsOk(Retired(s, k))
  {
    hide Cut;
    var s', w := Retired(s, k), s.executing[k];
    forall v, c: nat | Holds(s', v, c) ensures c in s'.owner && s'.owner[c] == Some(v.idd) {
      assert Holds(s, v, c);
    }
    forall c: nat | c in s'.owner && s'.owner[c].Some? ensures Held(s', c, s'.owner[c].value) {
      var u :| Holds(s, u, c) && u.idd == s.owner[c].value;
      assert u.idd != w.idd ==> Holds(s', u, c);
    }
  }

  lemma RetiredCpus(s: State, k: nat)
    requires CpusOk(s) && k < |s.executing|
    ensures CpusOk(Retired(s, k))
  {
    hide FreeOk, PinsOk, Retired, Cut;
    RetiredFree(s, k);
    CutMembers(s.executing, k);
    RetiredPins(s, k);
  }

  lemma RetiredTotals(s: State, k: nat)
    requires CpusOk(s) && TotalsOk(s) && k < |s.executing|
    ensures TotalsOk(Retired(s, k)) && Retired(s, k).allocMem <= s.allocMem && Retired(s, k).minMemSum <= s.minMemSum
  {
    assert s.executing[k] in s.executing;
    CutMembers(s.executing, k);
    TotalCut(IdealOf, s.executing, k);
    TotalCut(MinOf, s.executing, k);
  }

  /** Promising less memory never breaks the policy. */
  lemma PolicyMonotone(cfg: Config, alloc: real, minSum: real, alloc': real, minSum': real)
    requires PolicyAllows(cfg, alloc, minSum) && 0.0 <= alloc' <= alloc && minSum' <= minSum && ConfigOk(cfg)
    ensures PolicyAllows(cfg, alloc', minSum')
  {
    if 0.0 < alloc' { RatioMonotone(cfg.totalMem, alloc', alloc); }
  }

  lemma RatioMonotone(total: real, a: real, b: real)
    requires 0.0 <= total && 0.0 < a <= b
    ensures total / a >= total / b
  {
    var p, q := total / a, total / b;
    assert p * a == total && q * b == total;
    Cancel(0.0, q, b);
    assert q * a <= q * b;
    Cancel(q, p, a);
  }

  lemma TotalsFacts(s: State)
    requires TotalsOk(s)
    ensures 0.0 <= s.minMemSum <= s.allocMem
  {
    TotalBounds(MinOf, IdealOf, s.executing);
  }

  // ----- Sharing memory

  /** The workload's part of the excess, with the ZeroDivisionError branch. */
  function ShareOfExcess(w: Workload, pool: real, excess: real): real {
    if pool == 0.0 then 0.0 else (w.cls.idealMem - w.minMem) / pool * excess
  }

  lemma ProportionalShare(w: Workload, pool: real, excess: real)
    requires 0.0 < w.cls.idealMem && 0.0 <= w.minMem <= w.cls.idealMem && 0.0 <= excess <= pool
    ensures w.minMem <= w.cls.idealMem - ShareOfExcess(w, pool, excess) <= w.cls.idealMem
    ensures (w.cls.idealMem - ShareOfExcess(w, pool, excess)) / w.cls.idealMem * w.cls.idealMem ==
      w.cls.idealMem - ShareOfExcess(w, pool, excess)
    ensures pool != 0.0 ==> ShareOfExcess(w, pool, excess) == (w.cls.idealMem - w.minMem) * (excess / pool)
  {
    var slack := w.cls.idealMem - w.minMem;
    if pool != 0.0 {
      var f := excess / pool;
      assert f * pool == excess;
      Cancel(0.0, f, pool);
      Cancel(f, 1.0, pool);
      assert slack / pool * excess == slack * f by { assert slack / pool * pool == slack; }
      assert 0.0 <= slack * f <= slack;
    }
  }
}
