/** The commands a memcached server processes, one atomic step each, and what holds over every run. */
module CacheCommands {
  import opened Basics
  import opened CacheSpec
  import opened CacheInvariant
  import opened CacheRuns

  datatype Command =
    | Tick(time: nat)
    | Begin(key: Bytes, exptime: nat, comm: StoreCommand, cas: nat, o: Allocation)
    | Receive(a: Addr, data: Bytes)
    | Complete(a: Addr, comm: StoreCommand, o: Allocation)
    | Get(key: Bytes, added: bool)
    | Release(a: Addr)
    | Delete(key: Bytes, delay: int)
    | Arithmetic(key: Bytes, text: Option<Bytes>, o: Allocation)
    | FlushAll(delay: int)
    | RunDeferredDeletes

  /** process_update_command: allocate; if that fails, a set at least drops the old value. */
  function BeginStep(s: State, key: Bytes, exptime: nat, comm: StoreCommand, cas: nat, o: Allocation): State {
    var r := AllocItem(s, key, exptime, o);
    if r.found.Some? && r.found.value in r.state.items then
      if comm == Cas then SetCas(r.state, r.found.value, cas) else r.state
    else if comm == Set then
      var g := GetItem(r.state, key);
      if g.found.Some? then RemoveItem(UnlinkItem(g.state, g.found.value), g.found.value) else g.state
    else r.state
  }

  function SetCas(s: State, a: Addr, cas: nat): State
    requires a in s.items
  {
    s.(items := s.items[a := s.items[a].(cas := cas)])
  }

  function DeleteStep(s: State, key: Bytes, delay: int): State {
    var g := GetItem(s, key);
    if g.found.None? || g.found.value !in g.state.items then g.state
    else if delay == 0 then RemoveItem(UnlinkItem(g.state, g.found.value), g.found.value)
    else DeferDelete(g.state, g.found.value, Realtime(delay, s.now, s.started))
  }

  /** The new settings.oldest_live, in unsigned arithmetic. */
  function FlushTime(s: State, delay: int): nat {
    ((if delay > 0 then Realtime(delay, s.now, s.started) else s.now) - 1) % UINT32
  }

  function FlushStep(s: State, delay: int): State {
    FlushExpired(s.(oldestLive := FlushTime(s, delay)))
  }

  /** process_arithmetic_command; without a `text` the old value was no number, and nothing is stored. */
  function ArithmeticStep(s: State, key: Bytes, text: Option<Bytes>, o: Allocation): State {
    var g := GetItem(s, key);
    if g.found.None? || g.found.value !in g.state.items then g.state
    else if text.None? then RemoveItem(g.state, g.found.value)
    else RemoveItem(AddDelta(g.state, g.found.value, text.value, o), g.found.value)
  }

  /** process_get_command, for one key: an item that could be added to the reply is refreshed and stays referenced, any
      other is released at once. */
  function GetStep(s: State, key: Bytes, added: bool): State {
    var g := GetItem(s, key);
    if g.found.None? || g.found.value !in g.state.items then g.state
    else if added then UpdateItem(g.state, g.found.value)
    else RemoveItem(g.state, g.found.value)
  }

  function Step(s: State, c: Command): State {
    match c
    case Tick(time) => s.(now := time)
    case Begin(key, exptime, comm, cas, o) => BeginStep(s, key, exptime, comm, cas, o)
    case Receive(a, data) => if a in s.items then SetData(s, a, data) else s
    case Complete(a, comm, o) => if a in s.items then RemoveItem(StoreItem(s, a, comm, o).state, a) else s
    case Get(key, added) => GetStep(s, key, added)
    case Release(a) => RemoveItem(s, a)
    case Delete(key, delay) => DeleteStep(s, key, delay)
    case Arithmetic(key, text, o) => ArithmeticStep(s, key, text, o)
    case FlushAll(delay) => FlushStep(s, delay)
    case RunDeferredDeletes => RunDeferred(s, 0)
  }

  /** The clock never goes back, connections use only references they hold, slabs_alloc answers properly, and no item
      has been held for so long that do_item_alloc frees it anyway. */
  ghost predicate Enabled(s: State, c: Command) {
    match c
    case Tick(time) => s.now <= time
    case Begin(key, exptime, comm, cas, o) => AllocationOk(s, o, |o.stale.data|) && Repair(s, o).None?
    case Receive(a, data) => a in s.held && a in s.items && !s.items[a].linked && |data| == |s.items[a].data|
    case Complete(a, comm, o) =>
      && a in s.held && a in s.items && !s.items[a].linked && StoreAllocationOk(s, a, comm, o)
      && Repair(GetItem(s, s.items[a].key).state, o).None?
    case Get(key, added) => true
    case Release(a) => a in s.held
    case Delete(key, delay) => true
    case Arithmetic(key, text, o) =>
      var g := GetItem(s, key);
      && Repair(g.state, o).None?
      && (g.found.Some? && g.found.value in s.items && text.Some? ==>
          |text.value| + 2 > |s.items[g.found.value].data| ==> AllocationOk(g.state, o, |text.value| + 2))
    case FlushAll(delay) => true
    case RunDeferredDeletes => true
  }

  function Exec(s: State, cs: seq<Command>): State
    decreases |cs|
  {
    if cs == [] then s else Exec(Step(s, cs[0]), cs[1..])
  }

  ghost predicate RunOk(s: State, cs: seq<Command>)
    decreases |cs|
  {
    cs == [] || (Enabled(s, cs[0]) && RunOk(Step(s, cs[0]), cs[1..]))
  }

  // ----- One step

  lemma SetCasSound(s: State, a: Addr, cas: nat)
    requires Inv(s) && a in s.items && !s.items[a].linked
    ensures Sound(s, SetCas(s, a, cas))
  {
    hide TableInv, LruInv, CasInv, RefInv, DeleteInv, TimeInv, StatInv, CasHistory, LinkHistory;
    var s' := SetCas(s, a, cas);
    SetCasCas(s, a, cas);
    RefData(s);
    LinksFrame(s, s'); DeleteFrame(s, s'); RefFrame(s, s'); Unchanged(s, s');
  }

  lemma SetCasCas(s: State, a: Addr, cas: nat)
    requires CasInv(s) && a in s.items && !s.items[a].linked
    ensures CasInv(SetCas(s, a, cas))
  {}

  /** Getting an item and dropping it for good. */
  lemma DropFound(s: State, key: Bytes)
    requires Inv(s) && GetItem(s, key).found.Some?
    ensures var g := GetItem(s, key);
      var s' := RemoveItem(UnlinkItem(g.state, g.found.value), g.found.value);
      Sound(s, s') && s'.held == s.held
  {
    hide TableInv, LruInv, CasInv, RefInv, DeleteInv, TimeInv, StatInv, CasHistory, LinkHistory;
    var g := GetItem(s, key);
    var a := g.found.value;
    GetSound(s, key);
    GetKeeps(s, key);
    UnlinkSound(g.state, a);
    UnlinkFacts(g.state, a);
    Transitive(s, g.state, UnlinkItem(g.state, a));
    RemoveSound(UnlinkItem(g.state, a), a);
    Transitive(s, UnlinkItem(g.state, a), RemoveItem(UnlinkItem(g.state, a), a));
    assert s.held + multiset{a} - multiset{a} == s.held;
  }

  lemma BeginSound(s: State, key: Bytes, exptime: nat, comm: StoreCommand, cas: nat, o: Allocation)
    requires Inv(s) && AllocationOk(s, o, |o.stale.data|)
    ensures Sound(s, BeginStep(s, key, exptime, comm, cas, o))
    ensures var found := AllocItem(s, key, exptime, o).found;
      BeginStep(s, key, exptime, comm, cas, o).held == if found.Some? then s.held + multiset{found.value} else s.held
  {
    hide TableInv, LruInv, CasInv, RefInv, DeleteInv, TimeInv, StatInv, CasHistory, LinkHistory;
    AllocSound(s, key, exptime, o, |o.stale.data|);
    var r := AllocItem(s, key, exptime, o);
    if r.found.Some? {
      if comm == Cas {
        SetCasSound(r.state, r.found.value, cas);
        Transitive(s, r.state, SetCas(r.state, r.found.value, cas));
      }
    } else if comm == Set {
      var g := GetItem(r.state, key);
      GetSound(r.state, key);
      Transitive(s, r.state, g.state);
      if g.found.Some? {
        DropFound(r.state, key);
        Transitive(s, r.state, RemoveItem(UnlinkItem(g.state, g.found.value), g.found.value));
      } else {
        GetHeld(r.state, key);
      }
    }
  }

  lemma GetHeld(s: State, key: Bytes)
    ensures GetItem(s, key).state.held ==
      if GetItem(s, key).found.Some? then s.held + multiset{GetItem(s, key).found.value} else s.held
  {}

  lemma CompleteSound(s: State, a: Addr, comm: StoreCommand, o: Allocation)
    requires Inv(s) && Enabled(s, Complete(a, comm, o))
    ensures var s' := Step(s, Complete(a, comm, o)); Sound(s, s') && s'.held == s.held - multiset{a}
  {
    hide TableInv, LruInv, CasInv, RefInv, DeleteInv, TimeInv, StatInv, CasHistory, LinkHistory;
    StoreSound(s, a, comm, o);
    var t := StoreItem(s, a, comm, o).state;
    RemoveSound(t, a);
    Transitive(s, t, RemoveItem(t, a));
  }

  lemma GetStepSound(s: State, key: Bytes, added: bool)
    requires Inv(s)
    ensures var s', found := GetStep(s, key, added), GetItem(s, key).found;
      Sound(s, s') && s'.held == if found.Some? && added then s.held + multiset{found.value} else s.held
  {
    hide TableInv, LruInv, CasInv, RefInv, DeleteInv, TimeInv, StatInv, CasHistory, LinkHistory;
    var g := GetItem(s, key);
    GetSound(s, key);
    GetKeeps(s, key);
    GetHeld(s, key);
    if g.found.Some? {
      var a := g.found.value;
      if added {
        UpdateSound(g.state, a);
        Transitive(s, g.state, UpdateItem(g.state, a));
      } else {
        RemoveSound(g.state, a);
        Transitive(s, g.state, RemoveItem(g.state, a));
        assert s.held + multiset{a} - multiset{a} == s.held;
      }
    }
  }

  lemma DeleteStepSound(s: State, key: Bytes, delay: int)
    requires Inv(s) && Enabled(s, Delete(key, delay))
    ensures Sound(s, DeleteStep(s, key, delay)) && DeleteStep(s, key, delay).held == s.held
  {
    hide TableInv, LruInv, CasInv, RefInv, DeleteInv, TimeInv, StatInv, CasHistory, LinkHistory;
    var g := GetItem(s, key);
    GetSound(s, key);
    GetKeeps(s, key);
    GetHeld(s, key);
    if g.found.Some? {
      var a := g.found.value;
      assert s.held + multiset{a} - multiset{a} == s.held;
      if delay == 0 {
        DropFound(s, key);
      } else {
        var deadline := Realtime(delay, s.now, s.started);
        DeferSound(g.state, a, deadline);
        Transitive(s, g.state, DeferDelete(g.state, a, deadline));
      }
    }
  }

  lemma ArithmeticSound(s: State, key: Bytes, text: Option<Bytes>, o: Allocation)
    requires Inv(s) && Enabled(s, Arithmetic(key, text, o))
    ensures var s' := Step(s, Arithmetic(key, text, o)); Sound(s, s') && s'.held == s.held
  {
    hide TableInv, LruInv, CasInv, RefInv, DeleteInv, TimeInv, StatInv, CasHistory, LinkHistory;
    var g := GetItem(s, key);
    GetSound(s, key);
    GetKeeps(s, key);
    GetHeld(s, key);
    if g.found.Some? {
      var a := g.found.value;
      assert s.held + multiset{a} - multiset{a} == s.held;
      var t := g.state;
      if text.Some? {
        DeltaSound(g.state, a, text.value, o);
        t := AddDelta(g.state, a, text.value, o);
        Transitive(s, g.state, t);
      }
      RemoveSound(t, a);
      Transitive(s, t, RemoveItem(t, a));
    }
  }

  lemma RetimedInv(s: State, now: nat, oldestLive: nat)
    requires Inv(s) && s.now <= now
    ensures Inv(s.(now := now, oldestLive := oldestLive))
  {
    hide TableInv, LruInv, CasInv, RefInv, DeleteInv, TimeInv, StatInv;
    var s' := s.(now := now, oldestLive := oldestLive);
    RetimedTime(s, s');
    RetimedLinks(s, s');
    RetimedStats(s, s');
    RetimedRefs(s, s');
  }

  /** `s'` differs from `s` only in the clock and the flush time. */
  predicate Retimed(s: State, s': State) {
    s' == s.(now := s'.now, oldestLive := s'.oldestLive)
  }

  lemma RetimedTime(s: State, s': State)
    requires TimeInv(s) && s.now <= s'.now && Retimed(s, s')
    ensures TimeInv(s')
  {}

  lemma RetimedLinks(s: State, s': State)
    requires TableInv(s) && LruInv(s) && CasInv(s) && Retimed(s, s')
    ensures TableInv(s') && LruInv(s') && CasInv(s')
  {}

  lemma RetimedStats(s: State, s': State)
    requires StatInv(s) && Retimed(s, s')
    ensures StatInv(s')
  {
    assert Linked(s') == Linked(s);
  }

  lemma RetimedRefs(s: State, s': State)
    requires RefInv(s) && DeleteInv(s) && Retimed(s, s')
    ensures RefInv(s') && DeleteInv(s')
  {}

  lemma TickSound(s: State, time: nat)
    requires Inv(s) && s.now <= time
    ensures Sound(s, s.(now := time))
  {
    hide TableInv, LruInv, CasInv, RefInv, DeleteInv, TimeInv, StatInv, CasHistory, LinkHistory;
    RetimedInv(s, time, s.oldestLive);
    Unchanged(s, s.(now := time));
  }

  lemma FlushStepFacts(s: State, delay: int)
    requires Inv(s)
    ensures var s' := FlushStep(s, delay); Inv(s') && CasHistory(s, s') && s'.held == s.held
  {
    hide Inv, CasHistory, LinkHistory, FlushFrom, FlushTime;
    var s1 := s.(oldestLive := FlushTime(s, delay));
    RetimedInv(s, s.now, s1.oldestLive);
    assert s1 == s.(now := s.now, oldestLive := s1.oldestLive);
    Reflexive(s1);
    FlushFromSound(s1, 0);
    CasBase(s, s1, FlushStep(s, delay));
  }

  lemma Reflexive(s: State)
    requires Inv(s)
    ensures Sound(s, s)
  {
    hide TableInv, LruInv, CasInv, RefInv, DeleteInv, TimeInv, StatInv, CasHistory, LinkHistory;
    Unchanged(s, s);
  }

  lemma CasBase(s: State, s1: State, s': State)
    requires s1.items == s.items && s1.casCounter == s.casCounter && CasHistory(s1, s')
    ensures CasHistory(s, s')
  {}

  /** One command keeps the joint invariant; apart from flush_all it also keeps every older link. */
  lemma StepSound(s: State, c: Command)
    requires Inv(s) && Enabled(s, c)
    ensures Inv(Step(s, c)) && CasHistory(s, Step(s, c))
    ensures !c.FlushAll? ==> LinkHistory(s, Step(s, c))
  {
    hide TableInv, LruInv, CasInv, RefInv, DeleteInv, TimeInv, StatInv, CasHistory, LinkHistory;
    match c
    case Tick(time) => TickSound(s, time);
    case Begin(key, exptime, comm, cas, o) => BeginSound(s, key, exptime, comm, cas, o);
    case Receive(a, data) => RefData(s); SetDataSound(s, a, data);
    case Complete(a, comm, o) => CompleteSound(s, a, comm, o);
    case Get(key, added) => GetStepSound(s, key, added);
    case Release(a) => RemoveSound(s, a);
    case Delete(key, delay) => DeleteStepSound(s, key, delay);
    case Arithmetic(key, text, o) => ArithmeticSound(s, key, text, o);
    case FlushAll(delay) => FlushStepFacts(s, delay);
    case RunDeferredDeletes => RunDeferredSound(s, 0);
  }

  /** Conservation of references: only Begin and Get take one, only Complete and Release return one. */
  lemma StepReferences(s: State, c: Command)
    requires Inv(s) && Enabled(s, c)
    ensures Step(s, c).held ==
      match c
      case Begin(key, exptime, comm, cas, o) =>
        var found := AllocItem(s, key, exptime, o).found;
        if found.Some? then s.held + multiset{found.value} else s.held
      case Get(key, added) =>
        var found := GetItem(s, key).found;
        if found.Some? && added then s.held + multiset{found.value} else s.held
      case Complete(a, comm, o) => s.held - multiset{a}
      case Release(a) => s.held - multiset{a}
      case _ => s.held
  {
    hide TableInv, LruInv, CasInv, RefInv, DeleteInv, TimeInv, StatInv, CasHistory, LinkHistory;
    match c
    case Tick(time) =>
    case Begin(key, exptime, comm, cas, o) => BeginSound(s, key, exptime, comm, cas, o);
    case Receive(a, data) =>
    case Complete(a, comm, o) => CompleteSound(s, a, comm, o);
    case Get(key, added) => GetStepSound(s, key, added);
    case Release(a) => RemoveSound(s, a);
    case Delete(key, delay) => DeleteStepSound(s, key, delay);
    case Arithmetic(key, text, o) => ArithmeticSound(s, key, text, o);
    case FlushAll(delay) => FlushStepFacts(s, delay);
    case RunDeferredDeletes => RunDeferredSound(s, 0);
  }

  // ----- Whole runs

  /** In every reachable state: linked iff in the hash table under its own key iff on the LRU list of its
      slab class, exact reference counts, distinct CAS ids, sorted lists and agreeing counters. */
  lemma {:induction false} RunKeepsInv(s: State, cs: seq<Command>)
    requires Inv(s) && RunOk(s, cs)
    ensures Inv(Exec(s, cs)) && CasHistory(s, Exec(s, cs))
    decreases |cs|
  {
    hide TableInv, LruInv, CasInv, RefInv, DeleteInv, TimeInv, StatInv, CasHistory, LinkHistory;
    if cs == [] {
      Unchanged(s, s);
    } else {
      StepSound(s, cs[0]);
      RunKeepsInv(Step(s, cs[0]), cs[1..]);
      CasTransitive(s, Step(s, cs[0]), Exec(s, cs));
    }
  }

  lemma {:induction false} RunKeepsLinks(s: State, cs: seq<Command>)
    requires Inv(s) && RunOk(s, cs) && forall c :: c in cs ==> !c.FlushAll?
    ensures Inv(Exec(s, cs)) && LinkHistory(s, Exec(s, cs))
    decreases |cs|
  {
    hide TableInv, LruInv, CasInv, RefInv, DeleteInv, TimeInv, StatInv, CasHistory, LinkHistory;
    if cs == [] {
      Unchanged(s, s);
    } else {
      assert cs[0] in cs;
      assert forall c :: c in cs[1..] ==> c in cs;
      StepSound(s, cs[0]);
      RunKeepsLinks(Step(s, cs[0]), cs[1..]);
      LinkTransitive(s, Step(s, cs[0]), Exec(s, cs));
    }
  }

  /** No item goes back to the slab allocator while a connection or the delete queue refers to it. */
  lemma ReferencedItemsStay(s: State, cs: seq<Command>, a: Addr)
    requires Inv(s) && RunOk(s, cs)
    requires a in Exec(s, cs).held || a in Exec(s, cs).todelete
    ensures a in Exec(s, cs).items && Exec(s, cs).items[a].refcount >= 1
  {
    hide TableInv, LruInv, CasInv, DeleteInv, TimeInv, StatInv, CasHistory, LinkHistory;
    RunKeepsInv(s, cs);
    var t := Exec(s, cs);
    if a in t.todelete { assert multiset(t.todelete)[a] > 0; }
  }

  /** Whether a lookup that ignores delete locks still sees the item. */
  predicate Visible(s: State, it: Item) {
    (it.deleted && !LockOver(it, s.now)) || (!Flushed(s, it) && !Expired(s, it))
  }

  lemma CasStoreResult(s: State, b: Addr, o: Allocation)
    requires b in s.items
    ensures StoreItem(s, b, Cas, o).result == Stored <==>
      var key := s.items[b].key;
      && key in s.table && s.table[key] in s.items && Visible(s, s.items[s.table[key]])
      && s.items[s.table[key]].cas == s.items[b].cas
  {
    hide UnlinkItem, LinkOver, RemoveItem, StoreJoined, UpdateItem;
  }

  /** A cas store with an id read earlier succeeds exactly when the key still has the very same item with the
      same id, not dropped by expiry or flush; and then that item still holds the bytes it held at the read. */
  lemma CasStoreIsSafe(s: State, cs: seq<Command>, key: Bytes, b: Addr, o: Allocation)
    requires Inv(s) && RunOk(s, cs) && key in s.table && s.table[key] in s.items
    requires b in Exec(s, cs).items && Exec(s, cs).items[b].key == key
    requires Exec(s, cs).items[b].cas == s.items[s.table[key]].cas
    ensures var t, a := Exec(s, cs), s.table[key];
      && (StoreItem(t, b, Cas, o).result == Stored <==>
        && key in t.table && t.table[key] == a && a in t.items && t.items[a].cas == s.items[a].cas
        && Visible(t, t.items[a]))
      && (StoreItem(t, b, Cas, o).result == Stored ==>
          a in t.items && t.items[a].data == s.items[a].data && t.items[a].key == key)
  {
    hide TableInv, LruInv, CasInv, RefInv, DeleteInv, TimeInv, StatInv, CasHistory, LinkHistory, StoreItem, Visible;
    var t := Exec(s, cs);
    RunKeepsInv(s, cs);
    CasStoreResult(t, b, o);
    TableFacts(s, key);
    if key in t.table {
      TableFacts(t, key);
      SameCasSameItem(s, t, key);
    }
  }

  lemma SameCasSameItem(s: State, t: State, key: Bytes)
    requires TableInv(s) && CasInv(s) && TableInv(t) && CasHistory(s, t) && key in s.table && key in t.table
    ensures var a, c := s.table[key], t.table[key];
      t.items[c].cas == s.items[a].cas ==> c == a && t.items[a].data == s.items[a].data
  {}

  /** An immediate flush_all sets the flush time to the last second and unlinks everything newer. */
  lemma ImmediateFlush(s: State, delay: int)
    requires Inv(s) && 2 <= s.now < UINT32 && delay <= 0
    ensures var s1 := FlushStep(s, delay);
      && Inv(s1) && s1.oldestLive == s.now - 1 && s1.now == s.now
      && forall a :: a in s1.items && s1.items[a].linked ==> s1.items[a].time < s1.oldestLive
  {
    hide Inv, CasHistory, LinkHistory, FlushFrom;
    var s0 := s.(oldestLive := s.now - 1);
    assert FlushTime(s, delay) == s.now - 1;
    assert s0 == s.(now := s.now, oldestLive := s.now - 1);
    RetimedInv(s, s.now, s.now - 1);
    FlushExact(s0);
    FlushFromSound(s0, 0);
  }

  lemma FlushTimes(s: State)
    requires Inv(s)
    ensures var t := FlushFrom(s, 0);
      forall a :: a in t.items && t.items[a].linked && a in s.items ==> s.items[a].time <= t.items[a].time
  {
    hide TableInv, LruInv, CasInv, RefInv, DeleteInv, TimeInv, StatInv, CasHistory;
    FlushFromSound(s, 0);
    FlushCounters(s, 0);
    StampFacts(FlushFrom(s, 0));
  }

  /** An immediate flush_all unlinks an item linked in this second exactly when the clock has reached 2: at reading 1
      the flush time becomes 0, which means "never". */
  lemma ImmediateFlushExact(s: State, delay: int, a: Addr)
    requires Inv(s) && s.now < UINT32 && delay <= 0
    requires a in s.items && s.items[a].linked && s.items[a].time == s.now
    ensures var s1 := FlushStep(s, delay);
      && (s.now == 1 ==> s1 == s.(oldestLive := 0))
      && (a in s1.items && s1.items[a].linked <==> s.now < 2)
  {
    hide Inv, CasHistory, LinkHistory, FlushFrom;
    if s.now >= 2 {
      ImmediateFlush(s, delay);
      var s0 := s.(oldestLive := s.now - 1);
      assert FlushTime(s, delay) == s.now - 1;
      assert s0 == s.(now := s.now, oldestLive := s.now - 1);
      RetimedInv(s, s.now, s.now - 1);
      FlushTimes(s0);
    } else if s.now == 0 {
      var s0 := s.(oldestLive := UINT32 - 1);
      assert FlushTime(s, delay) == UINT32 - 1;
      assert s0 == s.(now := s.now, oldestLive := UINT32 - 1);
      RetimedInv(s, s.now, UINT32 - 1);
      FlushExact(s0);
    }
  }

  /** After an immediate flush_all, until the next flush_all, a lookup returns only items linked since,
      and no item linked since is ever treated as flushed. */
  lemma FlushAllIsFinal(s: State, delay: int, cs: seq<Command>, key: Bytes)
    requires Inv(s) && 2 <= s.now < UINT32 && delay <= 0
    requires RunOk(FlushStep(s, delay), cs) && forall c :: c in cs ==> !c.FlushAll?
    ensures var s1 := FlushStep(s, delay); var t := Exec(s1, cs); var g := GetItem(t, key);
      && (g.found.Some? ==> g.found.value in t.items && t.items[g.found.value].stamp > s1.totalItems)
      && (forall a :: a in t.items && t.items[a].linked && t.items[a].stamp > s1.totalItems ==> !Flushed(t, t.items[a]))
  {
    hide Inv, CasHistory, LinkHistory, FlushStep, GetItem, Flushed;
    var s1 := FlushStep(s, delay);
    var t := Exec(s1, cs);
    ImmediateFlush(s, delay);
    RunKeepsLinks(s1, cs);
    FoundIsLive(t, key);
    FlushedStayDead(s1, t);
  }

  lemma FoundIsLive(s: State, key: Bytes)
    requires Inv(s)
    ensures var g := GetItem(s, key);
      g.found.Some? ==> g.found.value in s.items && s.items[g.found.value].linked && !Flushed(s, s.items[g.found.value])
  {
    hide TableInv, LruInv, CasInv, RefInv, DeleteInv, TimeInv, StatInv;
    GetKeeps(s, key);
  }

  lemma FlushedStayDead(s: State, t: State)
    requires LinkHistory(s, t) && s.oldestLive != 0 && s.now == s.oldestLive + 1
    requires forall a :: a in s.items && s.items[a].linked ==> s.items[a].time < s.oldestLive
    ensures forall a :: a in t.items && t.items[a].linked ==>
      (Flushed(t, t.items[a]) <==> t.items[a].stamp <= s.totalItems)
  {}

  // ----- Delete locks that end at time 0

  /** A delete command that locks an item until time 0, when the lock is already over. */
  predicate LocksAtZero(s: State, c: Command) {
    c.Delete? && c.delay != 0 && GetItem(s, c.key).found.Some? && Realtime(c.delay, s.now, s.started) == 0
  }

  predicate SomeLockAtZero(s: State, cs: seq<Command>)
    decreases |cs|
  {
    cs != [] && (LocksAtZero(s, cs[0]) || SomeLockAtZero(Step(s, cs[0]), cs[1..]))
  }

  /** Whether reaping from queue position `i` on meets the asserts of do_run_deferred_deletes and of
      item_delete_lock_over.  A build with NDEBUG goes on without them, as RunDeferred does. */
  predicate AssertsPass(s: State, i: nat)
    decreases |s.todelete| - i
  {
    i >= |s.todelete| ||
    var a := s.todelete[i];
    && a in s.items && s.items[a].deleted
    && (if LockOver(s.items[a], s.now) then s.items[a].refcount > 0 && AssertsPass(ReapEntry(s, i), i)
        else AssertsPass(s, i + 1))
  }

  /** Every entry from `i` on is delete-locked, and no due one is there twice. */
  ghost predicate NoDueTwice(s: State, i: nat) {
    && (forall k :: i <= k < |s.todelete| ==> s.todelete[k] in s.items && s.items[s.todelete[k]].deleted)
    && (forall k, l :: i <= k < l < |s.todelete| && LockOver(s.items[s.todelete[k]], s.now) ==>
      s.todelete[k] != s.todelete[l])
  }

  lemma ReapUnlocks(s: State, i: nat)
    requires i < |s.todelete| && s.todelete[i] in s.items
    ensures var r := ReapEntry(s, i); s.todelete[i] in r.items ==> !r.items[s.todelete[i]].deleted
  {}

  /** After reaping entry `i`, the rest of the queue is fine exactly if it was fine with the entry in front. */
  lemma ReapNoDueTwice(s: State, i: nat)
    requires Inv(s) && i < |s.todelete| && s.todelete[i] in s.items
    requires s.items[s.todelete[i]].deleted && LockOver(s.items[s.todelete[i]], s.now)
    ensures NoDueTwice(ReapEntry(s, i), i) <==> NoDueTwice(s, i)
  {
    hide TableInv, LruInv, CasInv, RefInv, DeleteInv, TimeInv, StatInv, CasHistory, LinkHistory, ReapEntry, LockOver;
    var a, q, r := s.todelete[i], s.todelete, ReapEntry(s, i);
    ReapSound(s, i); ReapUnlocks(s, i); ReapFrame(s, i);
    assert forall k :: i <= k < |r.todelete| ==> r.todelete[k] == q[k + 1];
    if NoDueTwice(s, i) {
      assert forall k :: i < k < |q| ==> q[k] != a;
      assert NoDueTwice(r, i) by {
        assert forall k :: i <= k < |r.todelete| ==>
          r.todelete[k] in s.items && r.items[r.todelete[k]] == s.items[q[k + 1]];
      }
    } else if NoDueTwice(r, i) {
      forall k | i < k < |q| ensures q[k] != a && q[k] in s.items && s.items[q[k]].deleted {
        assert r.todelete[k - 1] == q[k];
        EntryFacts(s, k);
      }
      forall k, l | i <= k < l < |q| && LockOver(s.items[q[k]], s.now) ensures q[k] != q[l] {
        if k > i { assert r.todelete[k - 1] == q[k] && r.todelete[l - 1] == q[l]; }
      }
      assert false;
    }
  }

  /** The asserts pass exactly when every entry is delete-locked and no due entry is queued twice. */
  lemma {:induction false} AssertsExact(s: State, i: nat)
    requires Inv(s) && i <= |s.todelete|
    ensures AssertsPass(s, i) <==> NoDueTwice(s, i)
    decreases |s.todelete| - i
  {
    hide TableInv, LruInv, CasInv, RefInv, DeleteInv, TimeInv, StatInv, CasHistory, LinkHistory, ReapEntry;
    if i < |s.todelete| && s.todelete[i] in s.items && s.items[s.todelete[i]].deleted {
      EntryFacts(s, i);
      if LockOver(s.items[s.todelete[i]], s.now) {
        ReapSound(s, i); ReapNoDueTwice(s, i); ReapFrame(s, i);
        AssertsExact(ReapEntry(s, i), i);
      } else {
        AssertsExact(s, i + 1);
      }
    }
  }

  /** While no lock was bad, the queue is proper and the asserts pass. */
  lemma ProperAsserts(s: State)
    requires Inv(s) && !s.badLock
    ensures ProperQueue(s) && AssertsPass(s, 0)
  {
    assert ProperQueue(s);
    ProperNoDueTwice(s);
    hide TableInv, LruInv, CasInv, RefInv, DeleteInv, TimeInv, StatInv, AssertsPass, NoDueTwice;
    AssertsExact(s, 0);
  }

  lemma ProperNoDueTwice(s: State)
    requires RefInv(s) && ProperQueue(s)
    ensures NoDueTwice(s, 0)
  {
    forall k | 0 <= k < |s.todelete|
      ensures s.todelete[k] in s.items && s.items[s.todelete[k]].deleted
    {
      EntryFacts(s, k);
    }
  }

  /** The same delete twice: the second one finds the item again exactly when its lock is over and it has not
      expired. */
  lemma TwiceQueue(s: State, key: Bytes, delay: int)
    requires Inv(s) && delay != 0 && GetItem(s, key).found.Some?
    ensures var a, d := GetItem(s, key).found.value, Realtime(delay, s.now, s.started);
      var s2 := Step(Step(s, Delete(key, delay)), Delete(key, delay));
      && s2.now == s.now && s2.todelete == s.todelete + (if d == 0 then [a, a] else [a])
      && (d == 0 ==> a in s2.items && s2.items[a].exptime == 0)
      && (d != 0 && !s.badLock ==> !s2.badLock)
  {
    hide TableInv, LruInv, CasInv, RefInv, DeleteInv, TimeInv, StatInv, Realtime;
    GetKeeps(s, key);
    var a, d := GetItem(s, key).found.value, Realtime(delay, s.now, s.started);
    var s1 := Step(s, Delete(key, delay));
    assert s1 == DeferDelete(TakeRef(s, a), a, d);
    hide UnlinkItem;
    TwiceSecond(s, s1, key, a, d);
    if d == 0 {
      assert Step(s1, Delete(key, delay)) == DeferDelete(TakeRef(s1, a), a, d);
    } else {
      UnlinkLocks(s1, a);
      UnlinkFrame(s1, a);
    }
  }

  lemma TwiceSecond(s: State, s1: State, key: Bytes, a: Addr, d: nat)
    requires GetItem(s, key).found == Some(a) && a in s.items && s1 == DeferDelete(TakeRef(s, a), a, d)
    ensures var g := GetItem(s1, key);
      if d == 0 then g.found == Some(a) && g.state == TakeRef(s1, a)
      else g.found == None && (g.state == s1 || g.state == UnlinkItem(s1, a))
  {
    hide UnlinkItem;
  }

  /** After a delete a lookup finds nothing, unless the delete sets a lock that is over at once. */
  lemma DeletedIsGone(s: State, key: Bytes, delay: int)
    requires Inv(s)
    ensures GetItem(DeleteStep(s, key, delay), key).found.Some? <==>
      GetItem(s, key).found.Some? && delay != 0 && Realtime(delay, s.now, s.started) == 0
  {
    hide TableInv, LruInv, CasInv, RefInv, DeleteInv, TimeInv, StatInv, Realtime;
    GetKeeps(s, key);
    var g := GetItem(s, key);
    if g.found.Some? {
      var a := g.found.value;
      if delay == 0 {
        UnlinkFacts(g.state, a);
        RemoveTable(UnlinkItem(g.state, a), a);
      } else {
        TwiceSecond(s, DeleteStep(s, key, delay), key, a, Realtime(delay, s.now, s.started));
      }
    } else if g.state != s {
      TableFacts(s, key);
      UnlinkFacts(s, s.table[key]);
    }
  }

  lemma RemoveTable(s: State, a: Addr)
    ensures RemoveItem(s, a).table == s.table
  {}

  /** Deleting a key twice with the same delay queues its item at most once exactly when it was not queued
      before and realtime() does not map the delay to 0. */
  lemma DeleteTwice(s: State, key: Bytes, delay: int)
    requires Inv(s) && delay != 0 && GetItem(s, key).found.Some?
    ensures var s2 := Step(Step(s, Delete(key, delay)), Delete(key, delay));
      Distinct(s2.todelete) <==>
        && Distinct(s.todelete) && GetItem(s, key).found.value !in s.todelete
        && Realtime(delay, s.now, s.started) != 0
  {
    hide Inv, Step, Realtime, GetItem, Distinct;
    TwiceQueue(s, key, delay);
    var a, q := GetItem(s, key).found.value, s.todelete;
    AppendDistinct(q, a);
    AppendDistinct(q + [a], a);
    assert q + [a] + [a] == q + [a, a];
  }

  lemma AppendDistinct(q: seq<Addr>, a: Addr)
    ensures Distinct(q + [a]) <==> Distinct(q) && a !in q
  {
    var r := q + [a];
    if Distinct(r) {
      assert forall i :: 0 <= i < |q| ==> r[i] == q[i] && r[i] != r[|q|];
    }
  }

  /** What that means for a server whose locks were all good so far: with such a delay, and only then, the item is
      queued twice, and reaping meets the second entry with ITEM_DELETED already cleared and fails the assert. */
  lemma DeleteTwiceAsserts(s: State, key: Bytes, delay: int)
    requires Inv(s) && !s.badLock && delay != 0 && GetItem(s, key).found.Some?
    ensures var s2 := Step(Step(s, Delete(key, delay)), Delete(key, delay));
      && (Distinct(s2.todelete) <==> Realtime(delay, s.now, s.started) != 0)
      && (AssertsPass(s2, 0) <==> Realtime(delay, s.now, s.started) != 0)
  {
    hide Inv, CasHistory, LinkHistory, AssertsPass, Realtime, NoDueTwice, Step, GetItem;
    var s1 := Step(s, Delete(key, delay));
    var s2 := Step(s1, Delete(key, delay));
    DeleteTwice(s, key, delay);
    ProperFound(s, key);
    StepSound(s, Delete(key, delay));
    StepSound(s1, Delete(key, delay));
    TwiceQueue(s, key, delay);
    if Realtime(delay, s.now, s.started) == 0 {
      TwiceDue(s2, |s.todelete|);
      AssertsExact(s2, 0);
    } else {
      ProperAsserts(s2);
    }
  }

  /** Two such delays: the negated clock, and the time 2^32 seconds after the server's start. */
  lemma ZeroDelays(s: State, key: Bytes, delay: int)
    requires Inv(s) && !s.badLock && delay != 0 && GetItem(s, key).found.Some?
    requires delay == 0 - s.now || delay == s.started + UINT32
    ensures var s2 := Step(Step(s, Delete(key, delay)), Delete(key, delay));
      !Distinct(s2.todelete) && !AssertsPass(s2, 0)
  {
    hide Inv, Step, AssertsPass, Distinct, GetItem;
    DeleteTwiceAsserts(s, key, delay);
  }

  lemma ProperFound(s: State, key: Bytes)
    requires Inv(s) && !s.badLock && GetItem(s, key).found.Some?
    ensures Distinct(s.todelete) && GetItem(s, key).found.value !in s.todelete
  {
    GetKeeps(s, key);
    assert ProperQueue(s);
  }

  lemma TwiceDue(s: State, k: nat)
    requires k + 1 < |s.todelete| && s.todelete[k] == s.todelete[k + 1] && s.todelete[k] in s.items
    requires LockOver(s.items[s.todelete[k]], s.now)
    ensures !NoDueTwice(s, 0)
  {}

  lemma DeleteLocks(s: State, key: Bytes, delay: int)
    requires Inv(s)
    ensures var bad := DeleteStep(s, key, delay).badLock;
      && (s.badLock ==> bad)
      && (!s.badLock ==> (bad <==> LocksAtZero(s, Delete(key, delay))))
  {
    hide TableInv, LruInv, CasInv, RefInv, DeleteInv, TimeInv, StatInv, GetItem, RemoveItem, UnlinkItem, Realtime;
    GetKeeps(s, key);
    LookupLocks(s, key);
    var g := GetItem(s, key);
    if g.found.Some? {
      UnlinkLocks(g.state, g.found.value);
      RemoveLocks(UnlinkItem(g.state, g.found.value), g.found.value);
    }
  }

  lemma UnlinkLocks(s: State, a: Addr)
    ensures UnlinkItem(s, a).badLock == s.badLock
  {}

  /** A command makes the locks bad exactly if it locks an item until time 0. */
  lemma StepLocks(s: State, c: Command)
    requires Inv(s) && Enabled(s, c)
    ensures s.badLock ==> Step(s, c).badLock
    ensures !s.badLock ==> (Step(s, c).badLock <==> LocksAtZero(s, c))
  {
    hide TableInv, LruInv, CasInv, RefInv, DeleteInv, TimeInv, StatInv, StoreItem, AddDelta, AllocItem;
    hide GetItem, RemoveItem, UnlinkItem, Realtime, FlushFrom, FlushTime, RunDeferred;
    forall t: State, b ensures RemoveItem(t, b).badLock == t.badLock { RemoveLocks(t, b); }
    forall t: State, b ensures UnlinkItem(t, b).badLock == t.badLock { UnlinkLocks(t, b); }
    forall t: State, key ensures GetItem(t, key).state.badLock == t.badLock { LookupLocks(t, key); }
    match c
    case Begin(key, exptime, comm, cas, o) => AllocLocks(s, key, exptime, o);
    case Complete(a, comm, o) => StoreLocks(s, a, comm, o);
    case Delete(key, delay) => DeleteLocks(s, key, delay);
    case Arithmetic(key, text, o) =>
      var g := GetItem(s, key);
      if g.found.Some? && g.found.value in g.state.items && text.Some? {
        DeltaLocks(g.state, g.found.value, text.value, o);
      }
    case FlushAll(delay) => FlushCounters(s.(oldestLive := FlushTime(s, delay)), 0);
    case RunDeferredDeletes => ReapLocks(s, 0);
    case _ =>
  }

  lemma AllocLocks(s: State, key: Bytes, exptime: nat, o: Allocation)
    ensures AllocItem(s, key, exptime, o).state.badLock == s.badLock
  {}

  lemma LinkOverLocks(s: State, a: Addr, prior: Option<Addr>)
    ensures LinkOver(s, a, prior).badLock == s.badLock
  {
    hide UnlinkItem, RemoveItem;
    forall t: State, b ensures RemoveItem(t, b).badLock == t.badLock { RemoveLocks(t, b); }
    forall t: State, b ensures UnlinkItem(t, b).badLock == t.badLock { UnlinkLocks(t, b); }
  }

  lemma LookupLocks(s: State, key: Bytes)
    ensures GetItem(s, key).state.badLock == s.badLock && GetNoCheck(s, key).state.badLock == s.badLock
  {}

  lemma RemoveLocks(s: State, a: Addr)
    ensures RemoveItem(s, a).badLock == s.badLock
  {}

  lemma JoinLocks(s: State, a: Addr, b: Addr, comm: StoreCommand, o: Allocation)
    requires a in s.items && b in s.items
    ensures StoreJoined(s, a, b, comm, o).state.badLock == s.badLock
  {
    hide AllocItem, LinkOver, RemoveItem;
    AllocLocks(s, s.items[a].key, s.items[b].exptime, o);
    forall t: State, n, prior ensures LinkOver(t, n, prior).badLock == t.badLock { LinkOverLocks(t, n, prior); }
    forall t: State, n ensures RemoveItem(t, n).badLock == t.badLock { RemoveLocks(t, n); }
  }

  lemma StoreLocks(s: State, a: Addr, comm: StoreCommand, o: Allocation)
    requires a in s.items
    ensures StoreItem(s, a, comm, o).state.badLock == s.badLock
  {
    hide GetItem, GetNoCheck, LinkOver, RemoveItem, StoreJoined;
    var key := s.items[a].key;
    var s1 := GetItem(s, key).state;
    LookupLocks(s, key);
    LookupLocks(s1, key);
    forall t: State, b, prior ensures LinkOver(t, b, prior).badLock == t.badLock { LinkOverLocks(t, b, prior); }
    forall t: State, b ensures RemoveItem(t, b).badLock == t.badLock { RemoveLocks(t, b); }
    var g := GetItem(s, key);
    if g.found.Some? && a in s1.items && g.found.value in s1.items { JoinLocks(s1, a, g.found.value, comm, o); }
  }

  lemma DeltaLocks(s: State, a: Addr, text: Bytes, o: Allocation)
    requires a in s.items
    ensures AddDelta(s, a, text, o).badLock == s.badLock
  {
    hide AllocItem;
    AllocLocks(s, s.items[a].key, s.items[a].exptime, o);
  }

  lemma {:induction false} ReapLocks(s: State, i: nat)
    ensures RunDeferred(s, i).badLock == s.badLock
    decreases |s.todelete| - i
  {
    if i < |s.todelete| {
      if s.todelete[i] in s.items && LockOver(s.items[s.todelete[i]], s.now) { ReapLocks(ReapEntry(s, i), i); }
      else { ReapLocks(s, i + 1); }
    }
  }

  /** On every run, the delete queue holds exactly the delete-locked items, once each, and reaping passes all its
      asserts, unless some delete locked an item until time 0. */
  lemma RunKeepsQueue(s: State, cs: seq<Command>)
    requires Inv(s) && RunOk(s, cs) && !s.badLock
    ensures Exec(s, cs).badLock <==> SomeLockAtZero(s, cs)
    ensures !SomeLockAtZero(s, cs) ==> ProperQueue(Exec(s, cs)) && AssertsPass(Exec(s, cs), 0)
  {
    hide Inv, ProperQueue, AssertsPass, LocksAtZero;
    RunLocks(s, cs);
    RunKeepsInv(s, cs);
    if !SomeLockAtZero(s, cs) { ProperAsserts(Exec(s, cs)); }
  }

  lemma {:induction false} RunLocks(s: State, cs: seq<Command>)
    requires Inv(s) && RunOk(s, cs)
    ensures Exec(s, cs).badLock == if s.badLock then true else SomeLockAtZero(s, cs)
    decreases |cs|
  {
    hide Inv, LocksAtZero, Step, Enabled, CasHistory, LinkHistory;
    if cs != [] {
      StepLocks(s, cs[0]);
      StepSound(s, cs[0]);
      RunLocks(Step(s, cs[0]), cs[1..]);
    }
  }
}
