/** The scheduler process: its admission tests on the numbers the servers last reported, and every run of the
    cluster. */
module CfmCluster {
  import opened Basics
  import opened CfmModel
  import opened CfmServer

  /** What get_resources reports. */
  datatype View = View(freeCpus: int, allocMem: real, minMemSum: real)

  /** SchedWorkload; mem_req is the class's ideal memory. */
  datatype Job = Job(cls: WorkloadClass, idd: nat)

  /** A server and the scheduler's record of it; `current` says that the record is newer than the last placement. */
  datatype Node = Node(machine: State, view: View, current: bool)

  // ----- The admission tests

  predicate FitsCpu(v: View, c: WorkloadClass) { v.freeCpus >= c.cpuReq }

  predicate FitsCpuRemote(v: View, c: WorkloadClass) { v.freeCpus - 1 >= c.cpuReq }

  predicate FitsNormally(cfg: Config, v: View, c: WorkloadClass) {
    FitsCpu(v, c) && cfg.totalMem - v.allocMem >= c.idealMem
  }

  predicate FitsFarmemUniform(cfg: Config, v: View, c: WorkloadClass, maxFar: real, totalFar: real)
    requires v.allocMem + c.idealMem != 0.0
  {
    var localRatio := Min(1.0, cfg.totalMem / (v.allocMem + c.idealMem));
    localRatio >= cfg.uniformRatio && (maxFar > 0.0 ==> (1.0 - localRatio) * c.idealMem + totalFar <= maxFar)
  }

  predicate FitsFarmemVariable(cfg: Config, v: View, c: WorkloadClass, maxFar: real, totalFar: real) {
    && v.minMemSum + MinMem(cfg, c) <= cfg.totalMem
    && (maxFar > 0.0 ==>
      var currFar := Max(0.0, v.allocMem - cfg.totalMem);
      var additional := if currFar > 0.0 then c.idealMem else Max(0.0, c.idealMem + v.allocMem - cfg.totalMem);
      totalFar + additional <= maxFar)
  }

  /** The uniform policy divides by this sum. */
  predicate Divisible(cfg: Config, v: View, c: WorkloadClass) {
    cfg.uniformRatio != 0.0 ==> v.allocMem + c.idealMem != 0.0
  }

  predicate FitsRemotemem(cfg: Config, v: View, c: WorkloadClass, maxFar: real, totalFar: real)
    requires Divisible(cfg, v, c)
  {
    FitsCpuRemote(v, c) &&
    if cfg.uniformRatio != 0.0 then FitsFarmemUniform(cfg, v, c, maxFar, totalFar)
    else FitsFarmemVariable(cfg, v, c, maxFar, totalFar)
  }

  function Sum(xs: seq<real>): real
    decreases |xs|
  {
    if xs == [] then 0.0 else Sum(xs[..|xs| - 1]) + xs[|xs| - 1]
  }

  function FarOf(cfg: Config, alloc: real): real { Max(0.0, alloc - cfg.totalMem) }

  function ViewFar(cfg: Config, nodes: seq<Node>): seq<real> {
    seq(|nodes|, i requires 0 <= i < |nodes| => FarOf(cfg, nodes[i].view.allocMem))
  }

  /** find_server_fits: a server that fits normally, and only if there is none, one that fits with far memory. */
  predicate Chosen(cfg: Config, nodes: seq<Node>, c: WorkloadClass, maxFar: real, i: nat)
    requires forall j :: 0 <= j < |nodes| ==> Divisible(cfg, nodes[j].view, c)
  {
    && i < |nodes|
    && (if FitsNormally(cfg, nodes[i].view, c) then forall j :: 0 <= j < i ==> !FitsNormally(cfg, nodes[j].view, c)
        else
          && cfg.remoteMem && (forall j :: 0 <= j < |nodes| ==> !FitsNormally(cfg, nodes[j].view, c))
          && FitsRemotemem(cfg, nodes[i].view, c, maxFar, Sum(ViewFar(cfg, nodes)))
          && forall j :: 0 <= j < i ==> !FitsRemotemem(cfg, nodes[j].view, c, maxFar, Sum(ViewFar(cfg, nodes))))
  }

  method FindServerFits(cfg: Config, nodes: seq<Node>, c: WorkloadClass, maxFar: real) returns (r: Option<nat>)
    requires forall j :: 0 <= j < |nodes| ==> Divisible(cfg, nodes[j].view, c)
    ensures r.Some? ==> Chosen(cfg, nodes, c, maxFar, r.value)
    ensures r == None ==> forall j :: 0 <= j < |nodes| ==> !Chosen(cfg, nodes, c, maxFar, j)
  {
    if |nodes| == 0 {
      return None;
    }
    for i := 0 to |nodes|
      invariant forall j :: 0 <= j < i ==> !FitsNormally(cfg, nodes[j].view, c)
    {
      if FitsNormally(cfg, nodes[i].view, c) {
        return Some(i);
      }
    }
    if !cfg.remoteMem {
      return None;
    }
    var fars := ViewFar(cfg, nodes);
    var totalFar := 0.0;
    for i := 0 to |nodes|
      invariant totalFar == Sum(fars[..i])
    {
      assert fars[..i + 1][..i] == fars[..i];
      totalFar := totalFar + Max(0.0, nodes[i].view.allocMem - cfg.totalMem);
    }
    assert fars[..|nodes|] == fars;
    for i := 0 to |nodes|
      invariant forall j :: 0 <= j < i ==> !FitsRemotemem(cfg, nodes[j].view, c, maxFar, totalFar)
    {
      if FitsRemotemem(cfg, nodes[i].view, c, maxFar, totalFar) {
        return Some(i);
      }
    }
    return None;
  }

  /** exec_one: the first pending job that some server fits. */
  method ExecOne(cfg: Config, nodes: seq<Node>, pending: seq<Job>, maxFar: real) returns (r: Option<(nat, nat)>)
    requires forall k, j :: 0 <= k < |pending| && 0 <= j < |nodes| ==> Divisible(cfg, nodes[j].view, pending[k].cls)
    ensures r.Some? ==> r.value.0 < |pending| && Chosen(cfg, nodes, pending[r.value.0].cls, maxFar, r.value.1)
    ensures forall k, j :: 0 <= k < (if r.Some? then r.value.0 else |pending|) && 0 <= j < |nodes| && k < |pending| ==>
      !Chosen(cfg, nodes, pending[k].cls, maxFar, j)
  {
    for k := 0 to |pending|
      invariant forall k', j :: 0 <= k' < k && 0 <= j < |nodes| ==> !Chosen(cfg, nodes, pending[k'].cls, maxFar, j)
    {
      var s := FindServerFits(cfg, nodes, pending[k].cls, maxFar);
      if s.Some? {
        return Some((k, s.value));
      }
    }
    return None;
  }

  // ----- Admission implies success

  /** A report errs on the safe side: since it was made the machine has only gained resources. */
  predicate Conservative(v: View, s: State) {
    v.freeCpus <= s.freeCpus && v.allocMem >= s.allocMem && v.minMemSum >= s.minMemSum
  }

  /** A workload admitted on a conservative report runs: no pop finds an empty set, no assert fails. */
  lemma AdmissionSuffices(s: State, v: View, c: WorkloadClass, maxFar: real, totalFar: real)
    requires StateOk(s) && ClassOk(s.cfg, c) && Conservative(v, s)
    requires Divisible(s.cfg, v, c)
    requires FitsNormally(s.cfg, v, c) || (s.cfg.remoteMem && FitsRemotemem(s.cfg, v, c, maxFar, totalFar))
    ensures CanRun(s, c)
  {
    TotalsFacts(s);
    if s.cfg.remoteMem && s.cfg.uniformRatio != 0.0 {
      var a, b := s.allocMem + c.idealMem, v.allocMem + c.idealMem;
      RatioMonotone(s.cfg.totalMem, a, b);
      if FitsNormally(s.cfg, v, c) { RatioOne(s.cfg.totalMem, a); }
    }
  }

  lemma RatioOne(total: real, a: real)
    requires 0.0 < a <= total
    ensures total / a >= 1.0
  {
    assert total / a * a == total;
    Cancel(1.0, total / a, a);
  }

  /** A job that fits normally passes the assert of shrink_all_uniformly exactly if the uniform ratio, which may be any
      number on the command line, is at most 1. */
  lemma UniformRatioExact(s: State, v: View, c: WorkloadClass)
    requires s.cfg.remoteMem && s.cfg.uniformRatio != 0.0 && FitsNormally(s.cfg, v, c)
    requires 0.0 <= s.allocMem <= v.allocMem && c.idealMem > 0.0
    ensures PolicyAllows(s.cfg, s.allocMem + c.idealMem, s.minMemSum + MinMem(s.cfg, c)) <==> s.cfg.uniformRatio <= 1.0
  {
    RatioOne(s.cfg.totalMem, s.allocMem + c.idealMem);
  }

  // ----- Runs of the cluster

  datatype Cluster = Cluster(cfg: Config, maxFar: real, nodes: seq<Node>, used: set<nat>)

  datatype Step =
    | Refresh(i: nat, dead: set<nat>)
    | Finish(i: nat, dead: set<nat>)
    | Place(i: nat, job: Job, dead: set<nat>)
    | Shuffle

  /** What check_finished promises on a machine that is in order. */
  ghost predicate CheckedFinished(s: State, s': State, dead: set<nat>) {
    StateOk(s) ==> StateOk(s') && Relaxed(s, s') && s'.executing == Alive(s.executing, dead) && s'.pinned == s.pinned
  }

  /** What execute promises if the workload can run there; otherwise anything may have happened. */
  ghost predicate ExecutedBy(s: State, s': State, w: Workload) {
    StateOk(s) && ClassOk(s.cfg, w.cls) && !Runs(s.executing, w.idd) && CanRun(s, w.cls) ==>
      StateOk(s') && Executed(s, s', w)
  }

  function Report(s: State): View { View(s.freeCpus, s.allocMem, s.minMemSum) }

  /** One RPC, or the scheduler's shuffle. A placement needs a report from every server since the last one;
      the server clears finished workloads before it executes. */
  ghost predicate Next(c: Cluster, c': Cluster, step: Step) {
    && c'.cfg == c.cfg && c'.maxFar == c.maxFar
    && match step
       case Refresh(i, dead) =>
         && i < |c.nodes| && c'.used == c.used
         && exists s' ::
           CheckedFinished(c.nodes[i].machine, s', dead) && c'.nodes == c.nodes[i := Node(s', Report(s'), true)]
       case Finish(i, dead) =>
         && i < |c.nodes| && c'.used == c.used
         && exists s' ::
           CheckedFinished(c.nodes[i].machine, s', dead) && c'.nodes == c.nodes[i := c.nodes[i].(machine := s')]
       case Place(i, job, dead) =>
         && Placeable(c, job) && Chosen(c.cfg, c.nodes, job.cls, c.maxFar, i) && c'.used == c.used + {job.idd}
         && exists s1, s' :: Placed(c, c', i, job, dead, s1, s')
       case Shuffle => c'.used == c.used && multiset(c'.nodes) == multiset(c.nodes)
  }

  ghost predicate Placeable(c: Cluster, job: Job) {
    && ClassOk(c.cfg, job.cls) && job.idd !in c.used
    && (forall j :: 0 <= j < |c.nodes| ==> c.nodes[j].current && Divisible(c.cfg, c.nodes[j].view, job.cls))
  }

  ghost predicate Placed(c: Cluster, c': Cluster, i: nat, job: Job, dead: set<nat>, s1: State, s': State)
    requires i < |c.nodes|
  {
    && CheckedFinished(c.nodes[i].machine, s1, dead)
    && ExecutedBy(s1, s', Workload(job.idd, job.cls, MinMem(c.cfg, job.cls)))
    && c'.nodes == seq(|c.nodes|, j requires 0 <= j < |c.nodes| =>
      c.nodes[j].(current := false, machine := if j == i then s' else c.nodes[j].machine))
  }

  function Fars(c: Cluster): seq<real> {
    seq(|c.nodes|, i requires 0 <= i < |c.nodes| => FarOf(c.cfg, c.nodes[i].machine.allocMem))
  }

  ghost predicate NodeOk(c: Cluster, n: Node) {
    && StateOk(n.machine) && n.machine.cfg == c.cfg
    && (forall w :: w in n.machine.executing ==> w.idd in c.used)
    && (n.current ==> Conservative(n.view, n.machine))
  }

  ghost predicate ClusterOk(c: Cluster) {
    && (forall i :: 0 <= i < |c.nodes| ==> NodeOk(c, c.nodes[i]))
    && (c.cfg.uniformRatio == 0.0 && c.maxFar > 0.0 ==> Sum(Fars(c)) <= c.maxFar)
  }

  /** After every server has checked in. */
  function StartedCluster(cfg: Config, maxFar: real, n: nat): Cluster {
    Cluster(cfg, maxFar, seq(n, _ => Node(CheckedIn(cfg), View(cfg.totalCpus, 0.0, 0.0), false)), {})
  }

  lemma {:induction false} SumZero(xs: seq<real>)
    requires forall i :: 0 <= i < |xs| ==> xs[i] == 0.0
    ensures Sum(xs) == 0.0
    decreases |xs|
  {
    if xs != [] { SumZero(xs[..|xs| - 1]); }
  }

  lemma {:induction false} SumBounds(xs: seq<real>, ys: seq<real>)
    requires |xs| == |ys| && forall i :: 0 <= i < |xs| ==> xs[i] <= ys[i]
    ensures Sum(xs) <= Sum(ys)
    decreases |xs|
  {
    if xs != [] { SumBounds(xs[..|xs| - 1], ys[..|ys| - 1]); }
  }

  lemma {:induction false} SumUpdate(xs: seq<real>, i: nat, v: real)
    requires i < |xs|
    ensures Sum(xs[i := v]) == Sum(xs) - xs[i] + v
    decreases |xs|
  {
    var n := |xs| - 1;
    if i == n {
      assert xs[i := v][..n] == xs[..n];
    } else {
      SumUpdate(xs[..n], i, v);
      assert xs[i := v][..n] == xs[..n][i := v];
    }
  }

  lemma {:induction false} SumCut(xs: seq<real>, k: nat)
    requires k < |xs|
    ensures Sum(Cut(xs, k)) == Sum(xs) - xs[k]
    decreases |xs|
  {
    var n := |xs| - 1;
    if k == n {
      assert Cut(xs, k) == xs[..n];
    } else {
      SumCut(xs[..n], k);
      assert Cut(xs, k)[..n - 1] == Cut(xs[..n], k);
    }
  }

  lemma StartedClusterOk(cfg: Config, maxFar: real, n: nat)
    requires ConfigOk(cfg)
    ensures ClusterOk(StartedCluster(cfg, maxFar, n))
  {
    CheckedInOk(cfg);
    SumZero(Fars(StartedCluster(cfg, maxFar, n)));
  }

  /** What the chosen server finds when the workload arrives, however many others finished in the meantime:
      exactly what its execute requires. */
  lemma PlacementRuns(c: Cluster, i: nat, job: Job, dead: set<nat>, s1: State)
    requires ClusterOk(c) && Placeable(c, job) && Chosen(c.cfg, c.nodes, job.cls, c.maxFar, i)
    requires CheckedFinished(c.nodes[i].machine, s1, dead)
    ensures StateOk(s1) && ClassOk(s1.cfg, job.cls) && !Runs(s1.executing, job.idd) && CanRun(s1, job.cls)
  {
    hide StateOk, FitsNormally, FitsRemotemem, CanRun, ClassOk;
    assert NodeOk(c, c.nodes[i]);
    AdmissionSuffices(s1, c.nodes[i].view, job.cls, c.maxFar, Sum(ViewFar(c.cfg, c.nodes)));
  }

  /** The estimate of the variable policy is never below the far memory that results. */
  lemma FarCapKept(c: Cluster, c': Cluster, i: nat, job: Job, dead: set<nat>, s1: State, s': State)
    requires ClusterOk(c) && Placeable(c, job) && Chosen(c.cfg, c.nodes, job.cls, c.maxFar, i)
    requires Placed(c, c', i, job, dead, s1, s') && c'.cfg == c.cfg
    requires c.cfg.uniformRatio == 0.0 && c.maxFar > 0.0
    ensures Sum(Fars(c')) <= c.maxFar
  {
    hide StateOk, MinMem;
    PlacementRuns(c, i, job, dead, s1);
    assert NodeOk(c, c.nodes[i]);
    forall j | 0 <= j < |c.nodes|
      ensures c.nodes[j].machine.allocMem <= c.nodes[j].view.allocMem
    {
      assert NodeOk(c, c.nodes[j]);
    }
    var far, viewFar := Fars(c), ViewFar(c.cfg, c.nodes);
    var v := c.nodes[i].view;
    assert Fars(c') == far[i := FarOf(c.cfg, s'.allocMem)];
    if FitsNormally(c.cfg, v, job.cls) {
      SumUpdate(far, i, FarOf(c.cfg, s'.allocMem));
    } else {
      var bound := viewFar[i := FarOf(c.cfg, v.allocMem + job.cls.idealMem)];
      SumUpdate(viewFar, i, FarOf(c.cfg, v.allocMem + job.cls.idealMem));
      SumBounds(Fars(c'), bound);
    }
  }

  /** A change at one server that promises no more memory. */
  lemma FarCapRelaxed(c: Cluster, c': Cluster, i: nat, n: Node)
    requires i < |c.nodes| && c'.nodes == c.nodes[i := n] && c'.cfg == c.cfg
    requires n.machine.allocMem <= c.nodes[i].machine.allocMem
    ensures Sum(Fars(c')) <= Sum(Fars(c))
  {
    SumBounds(Fars(c'), Fars(c));
  }

  lemma FinishedOk(c: Cluster, c': Cluster, i: nat, dead: set<nat>, s': State, n: Node)
    requires ClusterOk(c) && i < |c.nodes| && CheckedFinished(c.nodes[i].machine, s', dead)
    requires c'.cfg == c.cfg && c'.maxFar == c.maxFar && c'.used == c.used && c'.nodes == c.nodes[i := n]
    requires n.machine == s' && (n == Node(s', Report(s'), true) || n == c.nodes[i].(machine := s'))
    ensures ClusterOk(c')
  {
    hide StateOk;
    assert NodeOk(c, c.nodes[i]);
    forall j | 0 <= j < |c'.nodes| ensures NodeOk(c', c'.nodes[j]) { assert NodeOk(c, c.nodes[j]); }
    FarCapRelaxed(c, c', i, n);
  }

  lemma PlacedOk(c: Cluster, c': Cluster, i: nat, job: Job, dead: set<nat>, s1: State, s': State)
    requires ClusterOk(c) && Placeable(c, job) && Chosen(c.cfg, c.nodes, job.cls, c.maxFar, i)
    requires Placed(c, c', i, job, dead, s1, s') && c'.cfg == c.cfg && c'.maxFar == c.maxFar
    requires c'.used == c.used + {job.idd}
    ensures ClusterOk(c')
  {
    hide StateOk, FitsNormally, FitsRemotemem, MinMem, ClassOk, CanRun;
    PlacementRuns(c, i, job, dead, s1);
    assert NodeOk(c, c.nodes[i]);
    forall j | 0 <= j < |c'.nodes| ensures NodeOk(c', c'.nodes[j]) { assert NodeOk(c, c.nodes[j]); }
    if c.cfg.uniformRatio == 0.0 && c.maxFar > 0.0 { FarCapKept(c, c', i, job, dead, s1, s'); }
  }

  lemma ShuffledOk(c: Cluster, c': Cluster)
    requires ClusterOk(c) && c'.cfg == c.cfg && c'.maxFar == c.maxFar && c'.used == c.used
    requires multiset(c'.nodes) == multiset(c.nodes)
    ensures ClusterOk(c')
  {
    hide StateOk;
    forall j | 0 <= j < |c'.nodes| ensures NodeOk(c', c'.nodes[j]) {
      assert c'.nodes[j] in multiset(c.nodes);
    }
    FarShuffled(c.cfg, c.nodes, c'.nodes);
    assert Fars(c) == MachineFars(c.cfg, c.nodes) && Fars(c') == MachineFars(c.cfg, c'.nodes);
  }

  function MachineFars(cfg: Config, nodes: seq<Node>): seq<real> {
    seq(|nodes|, i requires 0 <= i < |nodes| => FarOf(cfg, nodes[i].machine.allocMem))
  }

  /** The order of the servers does not change the total. */
  lemma {:induction false} FarShuffled(cfg: Config, xs: seq<Node>, ys: seq<Node>)
    requires multiset(xs) == multiset(ys)
    ensures Sum(MachineFars(cfg, xs)) == Sum(MachineFars(cfg, ys))
    decreases |ys|
  {
    if ys == [] {
      assert |multiset(xs)| == 0;
    } else {
      var n := |ys| - 1;
      var k := TakeLast(xs, ys);
      FarShuffled(cfg, Cut(xs, k), ys[..n]);
      SumCut(MachineFars(cfg, xs), k);
      assert MachineFars(cfg, Cut(xs, k)) == Cut(MachineFars(cfg, xs), k);
      assert MachineFars(cfg, ys)[..n] == MachineFars(cfg, ys[..n]);
    }
  }

  /** Every step keeps every machine's invariant, the reports conservative, and the far-memory cap. */
  lemma NextOk(c: Cluster, c': Cluster, step: Step)
    requires ClusterOk(c) && Next(c, c', step)
    ensures ClusterOk(c')
  {
    hide ClusterOk, CheckedFinished, Placed, Placeable;
    match step
    case Refresh(i, dead) =>
      var s' :| CheckedFinished(c.nodes[i].machine, s', dead) && c'.nodes == c.nodes[i := Node(s', Report(s'), true)];
      FinishedOk(c, c', i, dead, s', Node(s', Report(s'), true));
    case Finish(i, dead) =>
      var s' :| CheckedFinished(c.nodes[i].machine, s', dead) && c'.nodes == c.nodes[i := c.nodes[i].(machine := s')];
      FinishedOk(c, c', i, dead, s', c.nodes[i].(machine := s'));
    case Place(i, job, dead) =>
      var s1, s' :| Placed(c, c', i, job, dead, s1, s');
      PlacedOk(c, c', i, job, dead, s1, s');
    case Shuffle =>
      ShuffledOk(c, c');
  }

  ghost predicate RunOk(cs: seq<Cluster>, steps: seq<Step>) {
    |cs| == |steps| + 1 && forall k :: 0 <= k < |steps| ==> Next(cs[k], cs[k + 1], steps[k])
  }

  /** On every run: CPU ownership stays a partition, free_cpus counts the free CPUs, the last CPU of a machine that
      has promised more memory than it has is free, and the cluster's far memory stays within max_far. */
  lemma {:induction false} RunKeeps(cs: seq<Cluster>, steps: seq<Step>, k: nat)
    requires RunOk(cs, steps) && ClusterOk(cs[0]) && k < |cs|
    ensures ClusterOk(cs[k])
    decreases k
  {
    hide ClusterOk, Next;
    if k > 0 {
      RunKeeps(cs, steps, k - 1);
      NextOk(cs[k - 1], cs[k], steps[k - 1]);
    }
  }

  /** On every run from checkin, an admitted workload never fails on its server. */
  lemma RunNeverFails(cfg: Config, maxFar: real, n: nat, cs: seq<Cluster>, steps: seq<Step>, k: nat, i: nat, job: Job,
                      dead: set<nat>, s1: State)
    requires ConfigOk(cfg) && RunOk(cs, steps) && cs[0] == StartedCluster(cfg, maxFar, n) && k < |cs|
    requires Placeable(cs[k], job) && Chosen(cs[k].cfg, cs[k].nodes, job.cls, cs[k].maxFar, i)
    requires CheckedFinished(cs[k].nodes[i].machine, s1, dead)
    ensures StateOk(s1) && ClassOk(s1.cfg, job.cls) && !Runs(s1.executing, job.idd) && CanRun(s1, job.cls)
  {
    hide ClusterOk, RunOk, Placeable, Chosen, CheckedFinished, StateOk, CanRun;
    StartedClusterOk(cfg, maxFar, n);
    RunKeeps(cs, steps, k);
    PlacementRuns(cs[k], i, job, dead, s1);
  }
}
