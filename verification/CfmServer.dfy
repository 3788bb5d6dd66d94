/** The server process: execute and check_finished on the machine's own state. */
module CfmServer {
  import opened Basics
  import opened CfmModel

  /** What execute needs in order not to fail: enough free CPUs, one more when the last one has to be left to
      the reclaimer, and the memory its asserts ask for. */
  predicate CanRun(s: State, c: WorkloadClass) {
    && s.freeCpus >= c.cpuReq + (if s.allocMem + c.idealMem > s.cfg.totalMem then 1 else 0)
    && PolicyAllows(s.cfg, s.allocMem + c.idealMem, s.minMemSum + MinMem(s.cfg, c))
  }

  /** `w` runs on CPUs that were free; a workload that held the reclaimer's CPU traded it for another free one. */
  ghost predicate Executed(s: State, s': State, w: Workload) {
    && s'.cfg == s.cfg && s'.finished == s.finished && s'.executing == s.executing + [w]
    && s'.allocMem == s.allocMem + w.cls.idealMem && s'.minMemSum == s.minMemSum + w.minMem
    && s'.freeCpus == s.freeCpus - w.cls.cpuReq
    && w.idd in s'.pinned && s'.pinned[w.idd] <= s.unpinned && |s'.pinned[w.idd]| == w.cls.cpuReq
    && forall v :: v in s.executing ==> Kept(s, s', v.idd)
  }

  ghost predicate Kept(s: State, s': State, idd: nat) {
    && idd in s.pinned && idd in s'.pinned
    && (s'.pinned[idd] == s.pinned[idd] || (s'.usingRemote && Traded(s, s', idd)))
  }

  ghost predicate Traded(s: State, s': State, idd: nat)
    requires idd in s.pinned && idd in s'.pinned
  {
    var reclaimer := s.cfg.totalCpus - 1;
    reclaimer in s.pinned[idd] && exists r :: r in s.unpinned && s'.pinned[idd] == s.pinned[idd] - {reclaimer} + {r}
  }

  /** check_reclaimer_cpu: the workload on the reclaimer's CPU, if any, moved to a CPU `r` that was free. */
  ghost predicate OffReclaimer(s: State, s': State) {
    var reclaimer := s.cfg.totalCpus - 1;
    && reclaimer in s.owner
    && if s.owner[reclaimer] == None then s' == s
       else
         var idd := s.owner[reclaimer].value;
         exists r :: r in s.unpinned && idd in s.pinned && reclaimer in s.pinned[idd] && s' == MovedOff(s, idd, r)
  }

  lemma PinnableCpus(s: State)
    requires CpusOk(s) && s.cfg.totalCpus > 0
    ensures var reclaimer := s.cfg.totalCpus - 1;
      && reclaimer in s.owner && s.freeCpus == |s.unpinned|
      && if s.owner[reclaimer] == None then
           reclaimer in s.unpinned && s.unpinned * Cpus(reclaimer) == s.unpinned - {reclaimer}
         else reclaimer !in s.unpinned && s.unpinned * Cpus(reclaimer) == s.unpinned
  {
    hide NamesOk, PinsOk;
  }

  lemma Holder(s: State) returns (w: Workload)
    requires CpusOk(s) && s.cfg.totalCpus > 0 && s.cfg.totalCpus - 1 in s.owner && s.owner[s.cfg.totalCpus - 1].Some?
    ensures w in s.executing && s.owner[s.cfg.totalCpus - 1] == Some(w.idd) && w.idd in s.pinned
  {
    var c := s.cfg.totalCpus - 1;
    assert Held(s, c, s.owner[c].value);
    w :| Holds(s, w, c) && w.idd == s.owner[c].value;
  }

  lemma NonEmpty(cpus: set<nat>)
    requires |cpus| > 0
    ensures exists c :: c in cpus
  {}

  lemma Offered(s: State, idd: nat, r: nat)
    requires idd in s.pinned && s.cfg.totalCpus > 0 && s.cfg.totalCpus - 1 !in s.unpinned
    ensures MovedOff(s, idd, r).unpinned - {s.cfg.totalCpus - 1} == s.unpinned - {r}
  {}

  /** The workloads still running once those in `dead` are gone, and the ones that went. */
  function Alive(ws: seq<Workload>, dead: set<nat>): seq<Workload>
    decreases |ws|
  {
    if ws == [] then []
    else Alive(ws[..|ws| - 1], dead) + if ws[|ws| - 1].idd in dead then [] else [ws[|ws| - 1]]
  }

  function Gone(ws: seq<Workload>, dead: set<nat>): seq<Workload>
    decreases |ws|
  {
    if ws == [] then []
    else Gone(ws[..|ws| - 1], dead) + if ws[|ws| - 1].idd in dead then [ws[|ws| - 1]] else []
  }

  class Machine {
    const cfg: Config
    var freeCpus: int
    var allocMem: real
    var minMemSum: real
    var usingRemote: bool
    var unpinned: set<nat>
    var owner: map<nat, Option<nat>>
    var executing: seq<Workload>
    var finished: seq<Workload>
    var pinned: map<nat, set<nat>>
    var ratio: map<nat, real>

    function Abs(): State
      reads this
    {
      State(cfg, freeCpus, allocMem, minMemSum, usingRemote, unpinned, owner, executing, finished, pinned, ratio)
    }

    /** checkin. */
    constructor (cfg: Config)
      requires ConfigOk(cfg)
      ensures Abs() == CheckedIn(cfg) && StateOk(Abs())
    {
      this.cfg := cfg;
      freeCpus := cfg.totalCpus;
      allocMem, minMemSum, usingRemote := 0.0, 0.0, false;
      unpinned := Cpus(cfg.totalCpus);
      owner := map c | c in Cpus(cfg.totalCpus) :: None;
      executing, finished, pinned, ratio := [], [], map[], map[];
      new;
      CheckedInOk(cfg);
    }

    /** check_state. */
    method CheckState()
      modifies this`usingRemote
      ensures usingRemote == (allocMem > cfg.totalMem)
    {
      if usingRemote {
        if allocMem <= cfg.totalMem {
          usingRemote := false;
        }
      } else {
        if allocMem > cfg.totalMem {
          usingRemote := true;
        }
      }
    }

    /** check_reclaimer_cpu: afterwards the reclaimer's CPU is free, and every other free CPU is offered. */
    method CheckReclaimerCpu() returns (pinnable: set<nat>)
      requires CpusOk(Abs()) && cfg.totalCpus > 0 && freeCpus > 0
      modifies this`unpinned, this`owner, this`pinned
      ensures CpusOk(Abs()) && cfg.totalCpus - 1 in unpinned && pinnable == unpinned - {cfg.totalCpus - 1}
      ensures OffReclaimer(old(Abs()), Abs())
    {
      hide CpusOk, MovedOff, Holds;
      ghost var s := Abs();
      var reclaimer: nat := cfg.totalCpus - 1;
      PinnableCpus(s);
      pinnable := unpinned * Cpus(reclaimer);
      if owner[reclaimer].Some? {
        var idd := owner[reclaimer].value;
        ghost var w := Holder(s);
        NonEmpty(pinnable);
        var replacement: nat :| replacement in pinnable;
        MovedOffOk(s, w, replacement);
        pinnable := pinnable - {replacement};
        Replace(idd, replacement);
        Offered(s, idd, replacement);
      }
    }

    /** The workload moves from the reclaimer's CPU to its replacement. */
    method Replace(idd: nat, replacement: nat)
      requires idd in pinned && cfg.totalCpus > 0
      modifies this`unpinned, this`owner, this`pinned
      ensures Abs() == MovedOff(old(Abs()), idd, replacement)
    {
      var reclaimer: nat := cfg.totalCpus - 1;
      owner := owner[reclaimer := None][replacement := Some(idd)];
      unpinned := unpinned - {replacement} + {reclaimer};
      pinned := pinned[idd := pinned[idd] - {reclaimer} + {replacement}];
    }

    /** The pops of execute: none of them finds the set empty. */
    method PopSome(pinnable: set<nat>, n: nat) returns (cpus: set<nat>)
      requires n <= |pinnable|
      ensures cpus <= pinnable && |cpus| == n
    {
      var left := pinnable;
      cpus := {};
      for i := 0 to n
        invariant cpus <= pinnable && left == pinnable - cpus && |cpus| == i && |left| == |pinnable| - i
      {
        var c :| c in left;
        left := left - {c};
        cpus := cpus + {c};
      }
    }

    /** shrink_all_uniformly. */
    method ShrinkAllUniformly(ws: seq<Workload>)
      requires cfg.totalMem >= 0.0 && LocalRatio(cfg.totalMem, Total(IdealOf, ws)) >= cfg.uniformRatio
      modifies this`ratio
      ensures forall w :: w in ws ==> w.idd in ratio && ratio[w.idd] == LocalRatio(cfg.totalMem, Total(IdealOf, ws))
    {
      var localRatio := LocalRatio(cfg.totalMem, Total(IdealOf, ws));
      assert localRatio >= cfg.uniformRatio;
      for k := 0 to |ws|
        invariant forall j :: 0 <= j < k ==> ws[j].idd in ratio && ratio[ws[j].idd] == localRatio
      {
        ratio := ratio[ws[k].idd := localRatio];
      }
    }

    /** shrink_all_proportionally: every share lies between the workload's minimum and its ideal, and together the
        shares are all the local memory, or all that is wanted. */
    method ShrinkAllProportionally(ws: seq<Workload>)
      requires minMemSum == Total(MinOf, ws) && minMemSum <= cfg.totalMem
      requires forall w :: w in ws ==> 0.0 < w.cls.idealMem && 0.0 <= w.minMem <= w.cls.idealMem
      requires forall i, j :: 0 <= i < j < |ws| ==> ws[i].idd != ws[j].idd
      modifies this`ratio
      ensures forall w :: w in ws ==> w.idd in ratio && w.minMem <= ShareOf(ratio)(w) <= w.cls.idealMem
      ensures Total(ShareOf(ratio), ws) == Min(Total(IdealOf, ws), cfg.totalMem)
    {
      hide ShareOfExcess, IsShare, ShareOf;
      assert minMemSum <= cfg.totalMem;
      var totalIdealMem, totalMinMem := Total(IdealOf, ws), Total(MinOf, ws);
      var pool := totalIdealMem - totalMinMem;
      var excess := Max(0.0, totalIdealMem - cfg.totalMem);
      TotalBounds(MinOf, IdealOf, ws);
      for k := 0 to |ws|
        invariant forall j :: 0 <= j < k ==> ws[j].idd in ratio && IsShare(ws[j], ratio, pool, excess)
      {
        var r := (ws[k].cls.idealMem - ShareOfExcess(ws[k], pool, excess)) / ws[k].cls.idealMem;
        ShareNew(ws[k], ratio, pool, excess, r);
        forall j | 0 <= j < k ensures IsShare(ws[j], ratio[ws[k].idd := r], pool, excess) {
          ShareSet(ws[j], ratio, pool, excess, ws[k].idd, r);
        }
        ratio := ratio[ws[k].idd := r];
      }
      forall w | w in ws ensures w.idd in ratio && w.minMem <= ShareOf(ratio)(w) <= w.cls.idealMem {
        var j :| 0 <= j < |ws| && ws[j] == w;
        ShareInBounds(w, ratio, pool, excess);
      }
      SharesTotal(ws, ratio, pool, excess);
    }

    /** The choice of policy at the end of execute and of check_finished; without far memory execute asserts that
        everything promised fits. */
    method Shrink(ws: seq<Workload>)
      requires Sharable(cfg, allocMem, minMemSum, ws, ratio)
      modifies this`ratio
      ensures SharesOk(cfg, ws, ratio)
    {
      if cfg.remoteMem {
        if cfg.uniformRatio != 0.0 {
          ShrinkAllUniformly(ws);
        } else {
          ShrinkAllProportionally(ws);
        }
      } else {
        assert allocMem <= cfg.totalMem;
      }
    }

    /** The first part of execute: the memory is promised, and the CPUs on offer leave the reclaimer's out if need
        be. */
    method Ready(idealMem: real) returns (pinnable: set<nat>)
      requires CpusOk(Abs()) && cfg.totalCpus > 0 && (allocMem + idealMem > cfg.totalMem ==> freeCpus > 0)
      modifies this`allocMem, this`usingRemote, this`unpinned, this`owner, this`pinned
      ensures CpusOk(Abs()) && Readied(old(Abs()), Abs(), idealMem)
      ensures pinnable == if usingRemote then unpinned - {cfg.totalCpus - 1} else unpinned
      ensures |pinnable| == freeCpus - if usingRemote then 1 else 0
    {
      hide CpusOk, Readied, OffReclaimer;
      ghost var s := Abs();
      allocMem := allocMem + idealMem;
      CheckState();
      ghost var s0 := Abs();
      CpusFrame(s, s0);
      if usingRemote {
        pinnable := CheckReclaimerCpu();
        TakenOne(unpinned, cfg.totalCpus - 1);
      } else {
        pinnable := unpinned;
      }
      ReadiedOk(s, s0, Abs(), idealMem);
      FreeCount(Abs());
    }

    /** The second part of execute: the workload is created on the CPUs popped from those on offer. */
    method Launch(w: Workload, pinnable: set<nat>) returns (ghost cpus: set<nat>)
      requires w.cls.cpuReq <= |pinnable|
      modifies this`unpinned, this`owner, this`pinned, this`ratio, this`minMemSum, this`freeCpus
      ensures cpus <= pinnable && |cpus| == w.cls.cpuReq
      ensures Abs() == Started(old(Abs()), w, cpus).(executing := executing, ratio := old(ratio)[w.idd := 1.0])
    {
      var mine := PopSome(pinnable, w.cls.cpuReq);
      unpinned := unpinned - mine;
      owner := map c | c in owner :: if c in mine then Some(w.idd) else owner[c];
      pinned := pinned[w.idd := mine];
      ratio := ratio[w.idd := 1.0];
      minMemSum := minMemSum + w.minMem;
      freeCpus := freeCpus - w.cls.cpuReq;
      cpus := mine;
    }

    /** execute: with enough resources no pop finds an empty set and no assert fails. */
    method Execute(cls: WorkloadClass, idd: nat)
      requires StateOk(Abs()) && ClassOk(cfg, cls) && !Runs(executing, idd) && CanRun(Abs(), cls)
      modifies this
      ensures StateOk(Abs()) && Executed(old(Abs()), Abs(), Workload(idd, cls, MinMem(cfg, cls)))
    {
      hide StateOk, CpusOk, SharesOk, TotalsOk, Executed, Readied, ReclaimerOk, PolicyAllows, Started, ClassOk, Runs;
      hide CanRun, MinMem, Sharable;
      ghost var s := Abs();
      var w := Workload(idd, cls, MinMem(cfg, cls));
      ExecuteFacts(s, w);
      var pinnable := Ready(cls.idealMem);
      ghost var s1 := Abs();
      ReadiedFields(s, s1, cls.idealMem);
      ghost var cpus := Launch(w, pinnable);
      var all := executing + [w];
      ghost var s2 := Started(s1, w, cpus);
      ExecutedOk(s, s1, w, cpus);
      ShrinkFacts(s, s1, w, cpus);
      Shrink(all);
      assert freeCpus >= 0;
      executing := all;
      Finally(s, s2, Abs(), w);
    }

    /** One turn of the loop of check_finished, for a workload that is no longer alive. */
    method Retire(k: nat)
      requires CpusOk(Abs()) && TotalsOk(Abs()) && k < |executing|
      modifies this
      ensures executing == Cut(old(executing), k) && CpusOk(Abs()) && TotalsOk(Abs())
      ensures old(executing[k].idd in pinned) && Abs() == Retired(old(Abs()), k)
    {
      hide FreeOk, PinsOk;
      RetiredCpus(Abs(), k);
      RetiredTotals(Abs(), k);
      assert executing[k] in executing;
      var w := executing[k];
      var cpus := pinned[w.idd];
      unpinned := unpinned + cpus;
      owner := map c | c in owner :: if c in cpus then None else owner[c];
      freeCpus := freeCpus + w.cls.cpuReq;
      allocMem := allocMem - w.cls.idealMem;
      minMemSum := minMemSum - w.minMem;
      executing := Cut(executing, k);
    }

    /** The loop of check_finished. */
    method RetireDead(dead: set<nat>) returns (newFinished: seq<Workload>)
      requires CpusOk(Abs()) && TotalsOk(Abs())
      modifies this
      ensures CpusOk(Abs()) && TotalsOk(Abs()) && Relaxed(old(Abs()), Abs())
      ensures pinned == old(pinned) && finished == old(finished) && ratio == old(ratio)
      ensures usingRemote == old(usingRemote)
      ensures executing == Alive(old(executing), dead) && newFinished == Gone(old(executing), dead)
    {
      hide CpusOk, TotalsOk, Relaxed, Retired, Alive, Gone, Cut;
      ghost var s := Abs();
      var all, k := executing, 0;
      newFinished := [];
      AliveStart(all, dead);
      RelaxedRefl(s);
      for i := 0 to |all|
        invariant CpusOk(Abs()) && TotalsOk(Abs()) && Relaxed(s, Abs()) && pinned == s.pinned && finished == s.finished
        invariant ratio == s.ratio
        invariant k == |Alive(all[..i], dead)| && executing == Alive(all[..i], dead) + all[i..]
        invariant newFinished == Gone(all[..i], dead)
        invariant usingRemote == s.usingRemote
      {
        AliveStep(all, i, dead);
        if all[i].idd in dead {
          ghost var before := Abs();
          Retire(k);
          RetiredRelaxes(s, before, k);
          newFinished := newFinished + [all[i]];
        } else {
          k := k + 1;
        }
      }
      assert all[..|all|] == all;
    }

    /** check_finished: the workloads in `dead` give everything back, and the others share what there is. */
    method CheckFinished(dead: set<nat>)
      requires StateOk(Abs())
      modifies this
      ensures StateOk(Abs()) && Relaxed(old(Abs()), Abs())
      ensures executing == Alive(old(executing), dead) && finished == old(finished) + Gone(old(executing), dead)
      ensures pinned == old(pinned)
    {
      hide CpusOk, TotalsOk, SharesOk, PolicyAllows, ReclaimerOk, Relaxed, Alive, Gone, StateOk, Sharable;
      ghost var s := Abs();
      StateFacts(s);
      var newFinished := RetireDead(dead);
      ghost var s1 := Abs();
      Survivors(s, s1, dead);
      if newFinished != [] && cfg.remoteMem {
        Shrink(executing);
      }
      CheckState();
      finished := finished + newFinished;
      CpusFrame(s1, Abs());
      RelaxedOk(s, s1, Abs());
    }
  }

  lemma RelaxedRefl(s: State)
    ensures Relaxed(s, s)
  {}

  lemma AliveStart(ws: seq<Workload>, dead: set<nat>)
    ensures Alive(ws[..0], dead) == [] && Gone(ws[..0], dead) == []
  {}

  /** A machine only has more to offer than before. */
  ghost predicate Relaxed(s: State, s': State) {
    && s'.cfg == s.cfg && s.unpinned <= s'.unpinned && s.freeCpus <= s'.freeCpus
    && s'.allocMem <= s.allocMem && s'.minMemSum <= s.minMemSum
    && forall w :: w in s'.executing ==> w in s.executing
  }

  lemma StateFacts(s: State)
    requires StateOk(s)
    ensures CpusOk(s) && TotalsOk(s)
  {}

  lemma AliveStep(all: seq<Workload>, i: nat, dead: set<nat>)
    requires i < |all|
    ensures var ws, k := Alive(all[..i], dead) + all[i..], |Alive(all[..i], dead)|;
      && k < |ws| && ws[k] == all[i]
      && Alive(all[..i + 1], dead) + all[i + 1..] == (if all[i].idd in dead then Cut(ws, k) else ws)
      && Alive(all[..i + 1], dead) == Alive(all[..i], dead) + (if all[i].idd in dead then [] else [all[i]])
      && Gone(all[..i + 1], dead) == Gone(all[..i], dead) + (if all[i].idd in dead then [all[i]] else [])
  {
    var kept, w := Alive(all[..i], dead), all[i];
    assert all[..i + 1][..i] == all[..i];
    assert all[i..] == [w] + all[i + 1..];
    assert Cut(kept + all[i..], |kept|) == kept + all[i + 1..];
  }

  lemma {:induction false} NoneGone(ws: seq<Workload>, dead: set<nat>)
    requires Gone(ws, dead) == []
    ensures Alive(ws, dead) == ws
    decreases |ws|
  {
    if ws != [] {
      assert ws == ws[..|ws| - 1] + [ws[|ws| - 1]];
      NoneGone(ws[..|ws| - 1], dead);
    }
  }

  lemma RetiredRelaxes(s: State, t: State, k: nat)
    requires Relaxed(s, t) && CpusOk(t) && TotalsOk(t) && k < |t.executing|
    ensures t.executing[k] in t.executing && t.executing[k].idd in t.pinned
    ensures Relaxed(s, Retired(t, k)) && Retired(t, k).pinned == t.pinned && Retired(t, k).finished == t.finished
    ensures Retired(t, k).ratio == t.ratio && Retired(t, k).usingRemote == t.usingRemote
  {
    hide FreeOk, PinsOk;
    assert t.executing[k] in t.executing;
    CutMembers(t.executing, k);
    assert ClassOk(t.cfg, t.executing[k].cls);
  }

  /** What the workloads that are still there need from a new sharing. */
  lemma Survivors(s: State, s1: State, dead: set<nat>)
    requires StateOk(s) && Relaxed(s, s1) && CpusOk(s1) && TotalsOk(s1) && s1.ratio == s.ratio
    requires s1.executing == Alive(s.executing, dead)
    ensures Sharable(s1.cfg, s1.allocMem, s1.minMemSum, s1.executing, s1.ratio)
    ensures Gone(s.executing, dead) == [] || !s1.cfg.remoteMem ==> SharesOk(s1.cfg, s1.executing, s1.ratio)
  {
    hide FreeOk, PinsOk, PolicyAllows, LocalRatio, Total, MinMem, Alive, Gone, SharesOk;
    TotalsFacts(s1);
    PolicyMonotone(s.cfg, s.allocMem, s.minMemSum, s1.allocMem, s1.minMemSum);
    OldShares(s, s1);
    if Gone(s.executing, dead) == [] { NoneGone(s.executing, dead); }
  }

  lemma OldShares(s: State, s1: State)
    requires StateOk(s) && Relaxed(s, s1) && s1.ratio == s.ratio
    ensures !s.cfg.remoteMem ==> SharesOk(s1.cfg, s1.executing, s1.ratio)
    ensures !s.cfg.remoteMem ==> forall w :: w in s1.executing ==> w.idd in s1.ratio && s1.ratio[w.idd] == 1.0
  {
    hide CpusOk, TotalsOk, PolicyAllows, LocalRatio, Total;
  }

  lemma RelaxedOk(s: State, s1: State, s2: State)
    requires StateOk(s) && Relaxed(s, s1) && CpusOk(s2) && TotalsOk(s1)
    requires s2 == s1.(finished := s2.finished, ratio := s2.ratio, usingRemote := s1.allocMem > s1.cfg.totalMem)
    requires Sharable(s1.cfg, s1.allocMem, s1.minMemSum, s1.executing, s1.ratio)
    requires SharesOk(s1.cfg, s1.executing, s2.ratio)
    ensures StateOk(s2) && Relaxed(s, s2)
  {
    hide CpusOk, PolicyAllows, SharesOk;
  }

  lemma ExecuteFacts(s: State, w: Workload)
    requires StateOk(s) && CanRun(s, w.cls)
    ensures ConfigOk(s.cfg) && CpusOk(s)
    ensures s.freeCpus >= w.cls.cpuReq + (if s.allocMem + w.cls.idealMem > s.cfg.totalMem then 1 else 0)
  {}

  lemma ReadiedFields(s: State, s1: State, ideal: real)
    requires Readied(s, s1, ideal)
    ensures s1.cfg == s.cfg && s1.executing == s.executing && s1.freeCpus == s.freeCpus && s1.minMemSum == s.minMemSum
    ensures s1.allocMem == s.allocMem + ideal && s1.usingRemote == (s1.allocMem > s1.cfg.totalMem)
    ensures s1.ratio == s.ratio
  {}

  lemma ShrinkFacts(s: State, s1: State, w: Workload, cpus: set<nat>)
    requires StateOk(s) && CpusOk(s1) && Readied(s, s1, w.cls.idealMem) && CanRun(s, w.cls)
    requires w.minMem == MinMem(s.cfg, w.cls)
    requires cpus <= s1.unpinned && |cpus| == w.cls.cpuReq && !Runs(s.executing, w.idd)
    requires TotalsOk(Started(s1, w, cpus))
    ensures var s2, all := Started(s1, w, cpus), s.executing + [w];
      && CpusOk(s2) && s2.freeCpus >= 0 && s2.executing == all && s2.cfg == s.cfg && s2.finished == s.finished
      && s2.freeCpus == s.freeCpus - w.cls.cpuReq && s2.minMemSum == s.minMemSum + w.minMem
      && s2.allocMem == s1.allocMem
      && Sharable(s.cfg, s2.allocMem, s2.minMemSum, all, s.ratio[w.idd := 1.0])
  {
    hide FreeOk, PinsOk, ReclaimerOk, PolicyAllows, LocalRatio, Total, MinMem;
    StartedOk(s1, w, cpus);
    FreeCount(Started(s1, w, cpus));
  }

  lemma Finally(s: State, s2: State, s3: State, w: Workload)
    requires s3 == s2.(ratio := s3.ratio) && CpusOk(s2) && Executed(s, s2, w) && TotalsOk(s2) && ReclaimerOk(s2)
    requires Sharable(s2.cfg, s2.allocMem, s2.minMemSum, s2.executing, s.ratio[w.idd := 1.0])
    requires SharesOk(s2.cfg, s2.executing, s3.ratio)
    ensures StateOk(s3) && Executed(s, s3, w)
  {
    hide CpusOk, SharesOk, Executed;
    CpusFrame(s2, s3);
    RatioOnly(s2, s3, s, w);
  }

  ghost predicate Sharable(cfg: Config, alloc: real, minSum: real, ws: seq<Workload>, ratio: map<nat, real>) {
    && ConfigOk(cfg) && alloc == Total(IdealOf, ws) && minSum == Total(MinOf, ws)
    && (forall w :: w in ws ==> 0.0 < w.cls.idealMem && 0.0 <= w.minMem <= w.cls.idealMem)
    && (forall i, j :: 0 <= i < j < |ws| ==> ws[i].idd != ws[j].idd)
    && PolicyAllows(cfg, alloc, minSum)
    && (!cfg.remoteMem ==> forall w :: w in ws ==> w.idd in ratio && ratio[w.idd] == 1.0)
  }

  ghost predicate IsShare(w: Workload, ratio: map<nat, real>, pool: real, excess: real) {
    ShareOf(ratio)(w) == w.cls.idealMem - ShareOfExcess(w, pool, excess)
  }

  /** The shares add up. */
  lemma SharesTotal(ws: seq<Workload>, ratio: map<nat, real>, pool: real, excess: real)
    requires forall j :: 0 <= j < |ws| ==> IsShare(ws[j], ratio, pool, excess)
    requires pool == Total(IdealOf, ws) - Total(MinOf, ws) && 0.0 <= excess <= pool
    ensures Total(ShareOf(ratio), ws) == Total(IdealOf, ws) - excess
  {
    hide Total, IsShare, ShareOf;
    var f := if pool == 0.0 then 0.0 else excess / pool;
    SharesUpTo(ws, ratio, pool, excess, f);
    assert pool * f == excess;
  }

  lemma {:induction false} SharesUpTo(ws: seq<Workload>, ratio: map<nat, real>, pool: real, excess: real, f: real)
    requires forall j :: 0 <= j < |ws| ==> IsShare(ws[j], ratio, pool, excess)
    requires 0.0 <= excess <= pool && f == if pool == 0.0 then 0.0 else excess / pool
    ensures Total(ShareOf(ratio), ws) == Total(IdealOf, ws) - (Total(IdealOf, ws) - Total(MinOf, ws)) * f
    decreases |ws|
  {
    hide ShareOfExcess;
    if ws != [] {
      var n := |ws| - 1;
      SharesUpTo(ws[..n], ratio, pool, excess, f);
      assert IsShare(ws[n], ratio, pool, excess);
      ExcessPart(ws[n], pool, excess, f);
      ShareStep(Total(IdealOf, ws[..n]), Total(MinOf, ws[..n]), ws[n].cls.idealMem, ws[n].minMem, f);
    }
  }

  lemma ShareStep(ideals: real, mins: real, ideal: real, min: real, f: real)
    ensures ideals - (ideals - mins) * f + (ideal - (ideal - min) * f) ==
      (ideals + ideal) - ((ideals + ideal) - (mins + min)) * f
  {}

  lemma ShareSet(w: Workload, ratio: map<nat, real>, pool: real, excess: real, idd: nat, r: real)
    requires IsShare(w, ratio, pool, excess) && w.idd != idd
    ensures IsShare(w, ratio[idd := r], pool, excess)
  {
    hide ShareOfExcess;
  }

  lemma ShareNew(w: Workload, ratio: map<nat, real>, pool: real, excess: real, r: real)
    requires 0.0 < w.cls.idealMem && 0.0 <= w.minMem <= w.cls.idealMem && 0.0 <= excess <= pool
    requires r == (w.cls.idealMem - ShareOfExcess(w, pool, excess)) / w.cls.idealMem
    ensures IsShare(w, ratio[w.idd := r], pool, excess)
  {
    hide ShareOfExcess;
    ProportionalShare(w, pool, excess);
  }

  lemma ShareInBounds(w: Workload, ratio: map<nat, real>, pool: real, excess: real)
    requires 0.0 < w.cls.idealMem && 0.0 <= w.minMem <= w.cls.idealMem && 0.0 <= excess <= pool
    requires IsShare(w, ratio, pool, excess)
    ensures w.minMem <= ShareOf(ratio)(w) <= w.cls.idealMem
  {
    hide ShareOfExcess;
    ProportionalShare(w, pool, excess);
  }

  lemma ExcessPart(w: Workload, pool: real, excess: real, f: real)
    requires 0.0 <= excess <= pool && f == if pool == 0.0 then 0.0 else excess / pool
    ensures ShareOfExcess(w, pool, excess) == (w.cls.idealMem - w.minMem) * f
  {
    if pool != 0.0 {
      var slack := w.cls.idealMem - w.minMem;
      assert slack / pool * pool == slack && f * pool == excess;
    }
  }

  /** Only the CPU fields matter to the CPU invariants. */
  lemma CpusFrame(s: State, s': State)
    requires CpusOk(s) && s'.cfg == s.cfg && s'.freeCpus == s.freeCpus && s'.unpinned == s.unpinned
    requires s'.owner == s.owner
    requires s'.executing == s.executing && s'.pinned == s.pinned
    ensures CpusOk(s')
  {
    assert forall w, c: nat :: Holds(s', w, c) == Holds(s, w, c);
    forall c: nat | c in s.owner && s.owner[c].Some? ensures Held(s', c, s.owner[c].value) {
      var w :| Holds(s, w, c) && w.idd == s.owner[c].value;
      assert Holds(s', w, c);
    }
  }

  /** After check_state and check_reclaimer_cpu. */
  ghost predicate Readied(s: State, s1: State, ideal: real) {
    && s1.cfg == s.cfg && s1.executing == s.executing && s1.finished == s.finished && s1.freeCpus == s.freeCpus
    && s1.minMemSum == s.minMemSum && s1.ratio == s.ratio && s1.allocMem == s.allocMem + ideal
    && s1.usingRemote == (s1.allocMem > s1.cfg.totalMem)
    && (if s1.usingRemote then s.cfg.totalCpus - 1 in s1.unpinned && s1.unpinned - {s.cfg.totalCpus - 1} <= s.unpinned
        else s1.unpinned == s.unpinned)
    && forall v :: v in s.executing ==> Kept(s, s1, v.idd)
  }

  lemma ReadiedOk(s: State, s0: State, s1: State, ideal: real)
    requires CpusOk(s) && s.cfg.totalCpus > 0
    requires s0 == s.(allocMem := s.allocMem + ideal, usingRemote := s.allocMem + ideal > s.cfg.totalMem)
    requires if s0.usingRemote then OffReclaimer(s0, s1) && s.cfg.totalCpus - 1 in s1.unpinned else s1 == s0
    ensures Readied(s, s1, ideal)
  {
    hide CpusOk;
    RunningPinned(s);
    var reclaimer := s.cfg.totalCpus - 1;
    if s0.usingRemote && s.owner[reclaimer].Some? {
      var idd := s.owner[reclaimer].value;
      var r :| r in s.unpinned && idd in s.pinned && reclaimer in s.pinned[idd] && s1 == MovedOff(s0, idd, r);
      assert Traded(s, s1, idd);
      assert s1.pinned[idd] == s.pinned[idd] - {reclaimer} + {r};
    }
  }

  lemma RunningPinned(s: State)
    requires CpusOk(s)
    ensures forall v :: v in s.executing ==> v.idd in s.pinned
  {}

  lemma ExecutedOk(s: State, s1: State, w: Workload, cpus: set<nat>)
    requires StateOk(s) && Readied(s, s1, w.cls.idealMem) && !Runs(s.executing, w.idd) && |cpus| == w.cls.cpuReq
    requires cpus <= s1.unpinned && (s1.usingRemote ==> s1.cfg.totalCpus - 1 !in cpus)
    requires ClassOk(s.cfg, w.cls) && w.minMem == MinMem(s.cfg, w.cls)
    ensures Executed(s, Started(s1, w, cpus), w) && TotalsOk(Started(s1, w, cpus)) && ReclaimerOk(Started(s1, w, cpus))
    ensures !s.cfg.remoteMem ==> forall v :: v in s.executing ==> v.idd in s1.ratio && s1.ratio[v.idd] == 1.0
  {
    hide FreeOk, NamesOk, PinsOk;
    TotalPush(IdealOf, s.executing, w);
    TotalPush(MinOf, s.executing, w);
    var s2 := Started(s1, w, cpus);
    forall v | v in s.executing ensures Kept(s, s2, v.idd) {
      assert Kept(s, s1, v.idd) && v.idd != w.idd;
      assert Traded(s, s1, v.idd) ==> Traded(s, s2, v.idd);
    }
  }

  lemma RatioOnly(s2: State, s3: State, s: State, w: Workload)
    requires s3 == s2.(ratio := s3.ratio) && Executed(s, s2, w) && TotalsOk(s2) && ReclaimerOk(s2)
    ensures Executed(s, s3, w) && TotalsOk(s3) && ReclaimerOk(s3)
  {
    forall v | v in s.executing ensures Kept(s, s3, v.idd) {
      assert Kept(s, s2, v.idd);
      assert Traded(s, s2, v.idd) ==> Traded(s, s3, v.idd);
    }
  }

  lemma FreeCount(s: State)
    requires CpusOk(s)
    ensures s.freeCpus == |s.unpinned| >= 0
  {}

  lemma TakenOne(cpus: set<nat>, c: nat)
    requires c in cpus
    ensures |cpus - {c}| == |cpus| - 1
  {}
}
