/** The operations of the cache engine over time: what each of them keeps, and how the state after it follows from the
    state before. */
module CacheRuns {
  import opened Basics
  import opened CacheSpec
  import opened CacheInvariant

  // ----- How one state may follow another

  /** A linked item whose CAS id was issued before `s` was already linked in `s`, with the same key and bytes. */
  ghost predicate CasHistory(s: State, s': State) {
    && s.casCounter <= s'.casCounter
    && forall a :: a in s'.items && s'.items[a].linked && s'.items[a].cas <= s.casCounter ==>
      && a in s.items && s.items[a].linked && s.items[a].cas == s'.items[a].cas
      && s.items[a].key == s'.items[a].key && s.items[a].data == s'.items[a].data
  }

  /** Items linked before `s` keep their link, and only unflushed ones are refreshed; later links carry later times. */
  ghost predicate LinkHistory(s: State, s': State) {
    && s.totalItems <= s'.totalItems && s.now <= s'.now && s'.oldestLive == s.oldestLive
    && (forall a :: a in s'.items && s'.items[a].linked && s'.items[a].stamp <= s.totalItems ==>
      && a in s.items && s.items[a].linked && s.items[a].stamp == s'.items[a].stamp && s.items[a].key == s'.items[a].key
      && s.items[a].time <= s'.items[a].time
      && (s'.items[a].time == s.items[a].time || !Flushed(s, s.items[a])))
    && (forall a :: a in s'.items && s'.items[a].linked && s'.items[a].stamp > s.totalItems ==>
        s'.items[a].time >= s.now)
  }

  ghost predicate Sound(s: State, s': State) {
    Inv(s') && CasHistory(s, s') && LinkHistory(s, s')
  }

  lemma CasTransitive(s: State, t: State, u: State)
    requires CasHistory(s, t) && CasHistory(t, u)
    ensures CasHistory(s, u)
  {}

  lemma LinkTransitive(s: State, t: State, u: State)
    requires LinkHistory(s, t) && LinkHistory(t, u)
    ensures LinkHistory(s, u)
  {}

  lemma Transitive(s: State, t: State, u: State)
    requires Sound(s, t) && Sound(t, u)
    ensures Sound(s, u)
  {
    hide Inv, CasHistory, LinkHistory;
    CasTransitive(s, t, u);
    LinkTransitive(s, t, u);
  }

  /** A change that links, refreshes and rewrites nothing. */
  lemma Unchanged(s: State, s': State)
    requires s'.casCounter == s.casCounter && s'.totalItems == s.totalItems
    requires s'.now >= s.now && s'.oldestLive == s.oldestLive
    requires StatInv(s)
    requires forall a :: a in s'.items && s'.items[a].linked ==>
      && a in s.items && s.items[a].linked && s'.items[a].key == s.items[a].key && s'.items[a].data == s.items[a].data
      && s'.items[a].cas == s.items[a].cas && s'.items[a].time == s.items[a].time
      && s'.items[a].stamp == s.items[a].stamp
    ensures CasHistory(s, s') && LinkHistory(s, s')
  {}

  // ----- Primitive operations

  lemma LinkSound(s: State, a: Addr)
    requires Inv(s) && Linkable(s, a)
    ensures Sound(s, LinkItem(s, a))
  {
    LinkKeeps(s, a);
    LinkHistories(s, a);
    hide Inv, CasHistory, LinkHistory;
  }

  lemma LinkHistories(s: State, a: Addr)
    requires StatInv(s) && Linkable(s, a)
    ensures CasHistory(s, LinkItem(s, a)) && LinkHistory(s, LinkItem(s, a))
  {}

  lemma UnlinkSound(s: State, a: Addr)
    requires Inv(s)
    ensures Sound(s, UnlinkItem(s, a))
  {
    hide TableInv, LruInv, CasInv, RefInv, DeleteInv, TimeInv, StatInv, CasHistory, LinkHistory;
    UnlinkKeeps(s, a);
    Unchanged(s, UnlinkItem(s, a));
  }

  lemma TakeRefSound(s: State, a: Addr)
    requires Inv(s) && a in s.items
    ensures Sound(s, TakeRef(s, a))
  {
    hide TableInv, LruInv, CasInv, RefInv, DeleteInv, TimeInv, StatInv, CasHistory, LinkHistory;
    TakeRefKeeps(s, a);
    Unchanged(s, TakeRef(s, a));
  }

  lemma RemoveSound(s: State, a: Addr)
    requires Inv(s) && a in s.held
    ensures Sound(s, RemoveItem(s, a))
    ensures RemoveItem(s, a).held == s.held - multiset{a}
  {
    hide TableInv, LruInv, CasInv, RefInv, DeleteInv, TimeInv, StatInv, CasHistory, LinkHistory;
    RemoveKeeps(s, a);
    HeldFacts(s, a);
    Unchanged(s, RemoveItem(s, a));
  }

  lemma UpdateHistories(s: State, a: Addr)
    requires TimeInv(s) && StatInv(s) && a in s.items && !Flushed(s, s.items[a])
    ensures CasHistory(s, UpdateItem(s, a))
  {}

  lemma UpdateLinkHistory(s: State, a: Addr)
    requires TimeInv(s) && StatInv(s) && a in s.items && !Flushed(s, s.items[a])
    ensures LinkHistory(s, UpdateItem(s, a))
  {}

  lemma UpdateSound(s: State, a: Addr)
    requires Inv(s) && a in s.items && !Flushed(s, s.items[a])
    ensures Sound(s, UpdateItem(s, a))
    ensures UpdateItem(s, a).held == s.held
  {
    hide TableInv, LruInv, CasInv, RefInv, DeleteInv, TimeInv, StatInv, CasHistory, LinkHistory;
    UpdateKeeps(s, a);
    UpdateHistories(s, a);
    UpdateLinkHistory(s, a);
  }

  lemma GetSound(s: State, key: Bytes)
    requires Inv(s)
    ensures Sound(s, GetItem(s, key).state)
  {
    hide TableInv, LruInv, CasInv, RefInv, DeleteInv, TimeInv, StatInv, CasHistory, LinkHistory;
    Unchanged(s, s);
    if key in s.table {
      TableFacts(s, key);
      UnlinkSound(s, s.table[key]);
      TakeRefSound(s, s.table[key]);
    }
  }

  // ----- Allocation

  lemma PlaceRefs(s: State, a: Addr, key: Bytes, exptime: nat, o: Allocation)
    requires RefInv(s) && DeleteInv(s) && a != NULL && a !in s.items && |o.stale.data| >= 2
    ensures RefInv(Place(s, a, key, exptime, o))
  {
    assert multiset(s.todelete)[a] == 0;
  }

  lemma PlaceDeletes(s: State, a: Addr, key: Bytes, exptime: nat, o: Allocation)
    requires RefInv(s) && DeleteInv(s) && a !in s.items
    ensures DeleteInv(Place(s, a, key, exptime, o))
  {
    hide Distinct;
  }

  lemma PlaceTable(s: State, a: Addr, key: Bytes, exptime: nat, o: Allocation)
    requires TableInv(s) && a !in s.items
    ensures TableInv(Place(s, a, key, exptime, o))
  {}

  lemma PlaceCas(s: State, a: Addr, key: Bytes, exptime: nat, o: Allocation)
    requires CasInv(s) && a !in s.items
    ensures CasInv(Place(s, a, key, exptime, o))
  {}

  lemma PlaceLinks(s: State, a: Addr, key: Bytes, exptime: nat, o: Allocation)
    requires LruInv(s) && a !in s.items && o.cls < LARGEST_ID
    ensures LruInv(Place(s, a, key, exptime, o))
  {}

  lemma PlaceStats(s: State, a: Addr, key: Bytes, exptime: nat, o: Allocation)
    requires LruInv(s) && TimeInv(s) && StatInv(s) && a !in s.items
    ensures TimeInv(Place(s, a, key, exptime, o)) && StatInv(Place(s, a, key, exptime, o))
  {
    var s' := Place(s, a, key, exptime, o);
    assert Linked(s') == Linked(s);
    TotalsFrame(s.items, s'.items, Linked(s));
    forall c | 0 <= c < |s'.lru| ensures ByTime(s'.items, s'.lru[c]) {
      assert ByTime(s.items, s.lru[c]);
    }
  }

  lemma PlaceSound(s: State, a: Addr, key: Bytes, exptime: nat, o: Allocation)
    requires Inv(s) && a != NULL && a !in s.items && |o.stale.data| >= 2 && o.cls < LARGEST_ID
    ensures Sound(s, Place(s, a, key, exptime, o))
  {
    hide TableInv, LruInv, CasInv, RefInv, DeleteInv, TimeInv, StatInv, CasHistory, LinkHistory;
    PlaceRefs(s, a, key, exptime, o);
    PlaceDeletes(s, a, key, exptime, o);
    PlaceTable(s, a, key, exptime, o);
    PlaceCas(s, a, key, exptime, o);
    PlaceLinks(s, a, key, exptime, o);
    PlaceStats(s, a, key, exptime, o);
    Unchanged(s, Place(s, a, key, exptime, o));
  }

  lemma {:induction false} VictimFacts(items: map<Addr, Item>, q: seq<Addr>, tries: nat)
    ensures var v := Victim(items, q, tries);
      v.Some? ==> v.value in q && v.value in items && items[v.value].refcount == 0
    decreases tries
  {
    if tries != 0 && q != [] {
      VictimFacts(items, q[..|q| - 1], tries - 1);
    }
  }

  /** Eviction finds a victim exactly when one of the last `tries` items of the list is unreferenced. */
  lemma {:induction false} VictimExact(items: map<Addr, Item>, q: seq<Addr>, tries: nat)
    requires forall i :: 0 <= i < |q| ==> q[i] in items
    ensures Victim(items, q, tries).Some? <==>
      exists i :: 0 <= i < |q| && |q| - tries <= i && items[q[i]].refcount == 0
    decreases tries
  {
    if tries != 0 && q != [] {
      var r := q[..|q| - 1];
      VictimExact(items, r, tries - 1);
      if items[q[|q| - 1]].refcount != 0 {
        assert forall i :: 0 <= i < |r| ==> r[i] == q[i];
        if Victim(items, r, tries - 1).Some? {
          var i :| 0 <= i < |r| && |r| - (tries - 1) <= i && items[r[i]].refcount == 0;
          assert items[q[i]].refcount == 0;
        }
      }
    }
  }

  /** Eviction never touches an item with a reference. */
  lemma EvictSound(s: State, cls: nat)
    requires Inv(s)
    ensures Sound(s, Evict(s, cls)) && Evict(s, cls).held == s.held
    ensures forall a :: a in s.items && s.items[a].refcount > 0 ==>
      a in Evict(s, cls).items && Evict(s, cls).items[a] == s.items[a]
  {
    hide TableInv, LruInv, CasInv, RefInv, DeleteInv, TimeInv, StatInv, CasHistory, LinkHistory;
    var v := Victim(s.items, Queue(s, cls), EVICTION_TRIES);
    Unchanged(s, s);
    if v.Some? {
      VictimFacts(s.items, Queue(s, cls), EVICTION_TRIES);
      UnlinkSound(s, v.value);
      UnlinkFacts(s, v.value);
    }
  }

  lemma AllocSound(s: State, key: Bytes, exptime: nat, o: Allocation, nbytes: int)
    requires Inv(s) && AllocationOk(s, o, nbytes)
    ensures var r := AllocItem(s, key, exptime, o);
      && Sound(s, r.state)
      && (forall a :: a in s.items && s.items[a].refcount > 0 ==> a in r.state.items && r.state.items[a] == s.items[a])
      && (r.found.None? ==> r.state.held == s.held)
      && (r.found.Some? ==>
        && r.state.held == s.held + multiset{r.found.value}
        && r.found.value in r.state.items && !r.state.items[r.found.value].linked
        && r.state.items[r.found.value].key == key
        && |r.state.items[r.found.value].data| == nbytes
        && (r.found.value !in s.items || s.items[r.found.value].refcount == 0))
  {
    hide TableInv, LruInv, CasInv, RefInv, DeleteInv, TimeInv, StatInv, CasHistory, LinkHistory;
    Unchanged(s, s);
    if o.cls != 0 && o.first.Some? {
      PlaceSound(s, o.first.value, key, exptime, o);
    } else if Evicts(s, o) {
      var s1 := Evict(s, o.cls);
      EvictSound(s, o.cls);
      if o.second.Some? {
        PlaceSound(s1, o.second.value, key, exptime, o);
        Transitive(s, s1, Place(s1, o.second.value, key, exptime, o));
      }
    }
  }

  lemma {:induction false} LeakedExact(items: map<Addr, Item>, q: seq<Addr>, now: nat, tries: nat)
    ensures var a := Leaked(items, q, now, tries);
      && (a.Some? ==> a.value in q && Overdue(items, a.value, now))
      && (a.Some? <==> exists i :: 0 <= i < |q| && |q| - tries <= i && Overdue(items, q[i], now))
    decreases tries
  {
    if tries != 0 && q != [] {
      var r := q[..|q| - 1];
      LeakedExact(items, r, now, tries - 1);
      assert forall i :: 0 <= i < |r| ==> r[i] == q[i];
      if Leaked(items, r, now, tries - 1).Some? {
        var i :| 0 <= i < |r| && |r| - (tries - 1) <= i && Overdue(items, r[i], now);
        assert Overdue(items, q[i], now);
      }
    }
  }

  /** The tail repair: the count is cleared and the item unlinked. */
  function Repaired(s: State, a: Addr): State
    requires a in s.items
  {
    UnlinkItem(s.(items := s.items[a := s.items[a].(refcount := 0)]), a)
  }

  /** What the tail repair does: it comes to an item exactly if one of the last fifty of the list is referenced
      and has not been refreshed for three hours, and it always frees an item that a connection or the
      delete queue still refers to. */
  lemma RepairFrees(s: State, o: Allocation)
    requires Inv(s) && Evicts(s, o) && o.cls < LARGEST_ID && o.second.None?
    ensures var t := Evict(s, o.cls);
      && Inv(t) && t.held == s.held && t.todelete == s.todelete
      && (Repair(s, o).Some? <==>
          exists i :: 0 <= i < |Queue(t, o.cls)| && |Queue(t, o.cls)| - EVICTION_TRIES <= i
            && Overdue(t.items, Queue(t, o.cls)[i], s.now))
      && (Repair(s, o).Some? ==> var a := Repair(s, o).value;
          && a in t.items && (a in s.held || a in s.todelete) && a !in Repaired(t, a).items && !Inv(Repaired(t, a)))
  {
    hide Inv, LinkHistory, CasHistory, Leaked, Evicts;
    var t := Evict(s, o.cls);
    EvictSound(s, o.cls);
    EvictClock(s, o.cls);
    QueueItems(t, o.cls);
    LeakedExact(t.items, Queue(t, o.cls), t.now, EVICTION_TRIES);
    if Repair(s, o).Some? {
      RepairBreaks(t, Repair(s, o).value);
    }
  }

  lemma EvictClock(s: State, c: nat)
    ensures Evict(s, c).now == s.now && Evict(s, c).todelete == s.todelete
  {}

  lemma QueueItems(s: State, c: nat)
    requires Inv(s) && c < LARGEST_ID
    ensures |s.lru| == LARGEST_ID && forall a :: a in Queue(s, c) ==> a in s.items && s.items[a].linked
  {}

  lemma RepairBreaks(s: State, a: Addr)
    requires Inv(s) && a in s.items && s.items[a].refcount != 0 && s.items[a].linked
    ensures (a in s.held || a in s.todelete) && a !in Repaired(s, a).items && !Inv(Repaired(s, a))
  {
    hide TableInv, LruInv, CasInv, DeleteInv, TimeInv, StatInv;
    assert RefInv(s);
  }

  lemma SetDataSound(s: State, a: Addr, data: Bytes)
    requires Inv(s) && a in s.items && !s.items[a].linked && |data| >= 2
    ensures Sound(s, SetData(s, a, data))
  {
    hide TableInv, LruInv, CasInv, RefInv, DeleteInv, TimeInv, StatInv, CasHistory, LinkHistory;
    var s' := SetData(s, a, data);
    RefData(s);
    LinksFrame(s, s'); CasFrame(s, s'); DeleteFrame(s, s'); RefFrame(s, s');
    Unchanged(s, s');
  }

  // ----- do_store_item

  /** Linking over a held, linked item of the same key, and releasing it. */
  lemma LinkOverSound(s: State, a: Addr, b: Addr)
    requires Inv(s) && a in s.items && !s.items[a].linked && a != b && b in s.held
    requires b in s.items && s.items[b].linked && s.items[b].key == s.items[a].key
    ensures Sound(s, LinkOver(s, a, Some(b))) && LinkOver(s, a, Some(b)).held == s.held - multiset{b}
    ensures a in LinkOver(s, a, Some(b)).items
  {
    hide TableInv, LruInv, CasInv, RefInv, DeleteInv, TimeInv, StatInv, CasHistory, LinkHistory;
    var s1, s2 := UnlinkItem(s, b), ReplaceItem(s, b, a);
    HeldFacts(s, b);
    UnlinkSound(s, b);
    UnlinkFacts(s, b);
    LinkSound(s1, a);
    RemoveSound(s2, b);
    Transitive(s, s1, s2);
    Transitive(s, s2, RemoveItem(s2, b));
  }

  ghost predicate StoreAllocationOk(s: State, a: Addr, comm: StoreCommand, o: Allocation)
    requires a in s.items
  {
    var g := GetItem(s, s.items[a].key);
    comm in {Append, Prepend} && g.found.Some? && g.found.value in s.items ==>
      AllocationOk(g.state, o, |s.items[a].data| + |s.items[g.found.value].data| - 2)
  }

  lemma StoreJoinedSound(s: State, a: Addr, b: Addr, comm: StoreCommand, o: Allocation)
    requires Inv(s) && a in s.held && b in s.held && a != b && a in s.items && b in s.items
    requires !s.items[a].linked && s.items[b].linked && s.items[b].key == s.items[a].key
    requires AllocationOk(s, o, |s.items[a].data| + |s.items[b].data| - 2)
    ensures var r := StoreJoined(s, a, b, comm, o); Sound(s, r.state) && r.state.held == s.held - multiset{b}
  {
    hide TableInv, LruInv, CasInv, RefInv, DeleteInv, TimeInv, StatInv, CasHistory, LinkHistory;
    var nbytes := |s.items[a].data| + |s.items[b].data| - 2;
    HeldFacts(s, a); HeldFacts(s, b); RefData(s);
    AllocSound(s, s.items[a].key, s.items[b].exptime, o, nbytes);
    var r := AllocItem(s, s.items[a].key, s.items[b].exptime, o);
    if r.found.None? {
      RemoveSound(r.state, b);
      Transitive(s, r.state, RemoveItem(r.state, b));
    } else {
      JoinedSound(s, r.state, a, b, r.found.value, comm);
    }
  }

  /** The new item takes the joined data, is linked over the old one, and both references are dropped. */
  lemma JoinedSound(s: State, s1: State, a: Addr, b: Addr, n: Addr, comm: StoreCommand)
    requires Inv(s1) && Sound(s, s1) && a in s.items && b in s.items && |s.items[a].data| >= 2 && |s.items[b].data| >= 2
    requires n in s1.items && !s1.items[n].linked && n != b && s1.held == s.held + multiset{n} && b in s.held
    requires b in s1.items && s1.items[b].linked && s1.items[b].key == s1.items[n].key
    ensures var added, prior := s.items[a].data, s.items[b].data;
      var data := if comm == Append then Joined(prior, added) else Joined(added, prior);
      var s3 := LinkOver(SetData(s1, n, data), n, Some(b));
      Sound(s, RemoveItem(s3, n)) && RemoveItem(s3, n).held == s.held - multiset{b}
  {
    hide Inv, TableInv, LruInv, CasInv, RefInv, DeleteInv, TimeInv, StatInv, CasHistory, LinkHistory, LinkOver;
    var added, prior := s.items[a].data, s.items[b].data;
    var data := if comm == Append then Joined(prior, added) else Joined(added, prior);
    var s2 := SetData(s1, n, data);
    SetDataSound(s1, n, data);
    Transitive(s, s1, s2);
    var s3 := LinkOver(s2, n, Some(b));
    LinkOverSound(s2, n, b);
    Transitive(s, s2, s3);
    RemoveSound(s3, n);
    Transitive(s, s3, RemoveItem(s3, n));
  }

  /** Every path of do_store_item keeps the invariant and releases exactly the references it takes. */
  lemma StoreSound(s: State, a: Addr, comm: StoreCommand, o: Allocation)
    requires Inv(s) && a in s.held && a in s.items && !s.items[a].linked && StoreAllocationOk(s, a, comm, o)
    ensures var r := StoreItem(s, a, comm, o); Sound(s, r.state) && r.state.held == s.held
  {
    hide TableInv, LruInv, CasInv, RefInv, DeleteInv, TimeInv, StatInv, CasHistory, LinkHistory;
    var key := s.items[a].key;
    var g := GetItem(s, key);
    GetKeeps(s, key);
    GetSound(s, key);
    HeldFacts(s, a);
    if g.found.Some? {
      StoreFound(s, a, g.found.value, comm, o);
    } else if g.locked && comm in {Set, Cas} {
      StoreLocked(s, a, comm, o);
    } else if key in s.table && g.state == UnlinkItem(s, s.table[key]) {
      UnlinkFacts(s, s.table[key]);
      TableFacts(s, key);
      if comm in {Add, Set} { LinkAbsent(s, g.state, a); }
    } else if comm in {Add, Set} && !g.locked {
      LinkAbsent(s, g.state, a);
    }
  }

  lemma LinkAbsent(s: State, s1: State, a: Addr)
    requires Sound(s, s1) && Linkable(s1, a)
    ensures Sound(s, LinkItem(s1, a))
  {
    hide Inv, CasHistory, LinkHistory;
    LinkSound(s1, a);
    Transitive(s, s1, LinkItem(s1, a));
  }

  lemma StoreFound(s: State, a: Addr, b: Addr, comm: StoreCommand, o: Allocation)
    requires Inv(s) && a in s.held && a in s.items && !s.items[a].linked && StoreAllocationOk(s, a, comm, o)
    requires GetItem(s, s.items[a].key).found == Some(b)
    ensures var r := StoreItem(s, a, comm, o); Sound(s, r.state) && r.state.held == s.held
  {
    hide TableInv, LruInv, CasInv, RefInv, DeleteInv, TimeInv, StatInv, CasHistory, LinkHistory;
    var s1 := TakeRef(s, b);
    GetKeeps(s, s.items[a].key);
    TakeRefSound(s, b);
    assert s1.held - multiset{b} == s.held;
    if comm == Add {
      UpdateSound(s1, b);
      Transitive(s, s1, UpdateItem(s1, b));
      RemoveSound(UpdateItem(s1, b), b);
      Transitive(s, UpdateItem(s1, b), RemoveItem(UpdateItem(s1, b), b));
    } else if comm in {Append, Prepend} {
      StoreJoinedSound(s1, a, b, comm, o);
      Transitive(s, s1, StoreJoined(s1, a, b, comm, o).state);
    } else if comm == Cas && s.items[a].cas != s.items[b].cas {
      RemoveSound(s1, b);
      Transitive(s, s1, RemoveItem(s1, b));
    } else {
      LinkOverSound(s1, a, b);
      Transitive(s, s1, LinkOver(s1, a, Some(b)));
    }
  }

  lemma StoreLocked(s: State, a: Addr, comm: StoreCommand, o: Allocation)
    requires Inv(s) && a in s.held && a in s.items && !s.items[a].linked && comm in {Set, Cas}
    requires GetItem(s, s.items[a].key).locked
    ensures var r := StoreItem(s, a, comm, o); Sound(s, r.state) && r.state.held == s.held
  {
    hide TableInv, LruInv, CasInv, RefInv, DeleteInv, TimeInv, StatInv, CasHistory, LinkHistory;
    var b := s.table[s.items[a].key];
    var s1 := TakeRef(s, b);
    GetKeeps(s, s.items[a].key);
    TableFacts(s, s.items[a].key);
    TakeRefSound(s, b);
    assert s1.held - multiset{b} == s.held;
    if comm == Cas && s.items[a].cas != s.items[b].cas {
      RemoveSound(s1, b);
      Transitive(s, s1, RemoveItem(s1, b));
    } else {
      LinkOverSound(s1, a, b);
      Transitive(s, s1, LinkOver(s1, a, Some(b)));
    }
  }

  // ----- do_add_delta

  lemma InPlaceCas(s: State, s': State, a: Addr, data: Bytes)
    requires CasInv(s) && a in s.items
    requires s' ==
      s.(items := s.items[a := s.items[a].(data := data, cas := s.casCounter + 1)], casCounter := s.casCounter + 1)
    ensures CasInv(s')
  {}

  lemma InPlaceHistories(s: State, s': State, a: Addr, data: Bytes)
    requires StatInv(s) && a in s.items
    requires s' ==
      s.(items := s.items[a := s.items[a].(data := data, cas := s.casCounter + 1)], casCounter := s.casCounter + 1)
    ensures CasHistory(s, s') && LinkHistory(s, s')
  {}

  /** A number that no longer fits goes into a new item. */
  lemma DeltaNewSound(s: State, a: Addr, text: Bytes, o: Allocation)
    requires Inv(s) && a in s.held && a in s.items && s.items[a].linked
    requires |text| + 2 > |s.items[a].data| && AllocationOk(s, o, |text| + 2)
    ensures Sound(s, AddDelta(s, a, text, o)) && AddDelta(s, a, text, o).held == s.held
  {
    hide TableInv, LruInv, CasInv, RefInv, DeleteInv, TimeInv, StatInv, CasHistory, LinkHistory, AllocItem, UnlinkItem;
    hide LinkItem;
    var it := s.items[a];
    HeldFacts(s, a); RefData(s);
    var s' := AddDelta(s, a, text, o);
    AllocSound(s, it.key, it.exptime, o, |text| + 2);
    var r := AllocItem(s, it.key, it.exptime, o);
    if r.found.Some? {
      var n := r.found.value;
      var s2 := SetData(r.state, n, text + CRLF);
      SetDataSound(r.state, n, text + CRLF);
      Transitive(s, r.state, s2);
      var s3 := UnlinkItem(s2, a);
      UnlinkSound(s2, a);
      UnlinkFacts(s2, a);
      Transitive(s, s2, s3);
      LinkAbsent(s, s3, n);
      LinkHeld(s3, n);
      RemoveSound(LinkItem(s3, n), n);
      Transitive(s, LinkItem(s3, n), s');
    }
  }

  lemma LinkHeld(s: State, a: Addr)
    requires a in s.items
    ensures LinkItem(s, a).held == s.held
  {}

  lemma DeltaInPlaceSound(s: State, a: Addr, text: Bytes, o: Allocation)
    requires Inv(s) && a in s.items && |text| + 2 <= |s.items[a].data|
    ensures Sound(s, AddDelta(s, a, text, o)) && AddDelta(s, a, text, o).held == s.held
  {
    hide TableInv, LruInv, CasInv, RefInv, DeleteInv, TimeInv, StatInv, CasHistory, LinkHistory;
    var it := s.items[a];
    RefData(s);
    var s' := AddDelta(s, a, text, o);
    var data := text + seq(|it.data| - |text| - 2, _ => SPACE) + it.data[|it.data| - 2..];
    InPlaceCas(s, s', a, data);
    InPlaceHistories(s, s', a, data);
    LinksFrame(s, s'); DeleteFrame(s, s'); RefFrame(s, s');
  }

  lemma DeltaSound(s: State, a: Addr, text: Bytes, o: Allocation)
    requires Inv(s) && a in s.held && a in s.items && s.items[a].linked
    requires |text| + 2 > |s.items[a].data| ==> AllocationOk(s, o, |text| + 2)
    ensures Sound(s, AddDelta(s, a, text, o)) && AddDelta(s, a, text, o).held == s.held
  {
    hide Inv, Sound, AddDelta, AllocationOk;
    if |text| + 2 > |s.items[a].data| { DeltaNewSound(s, a, text, o); } else { DeltaInPlaceSound(s, a, text, o); }
  }

  // ----- Deferred deletes

  lemma DeferRefs(s: State, a: Addr, deadline: nat)
    requires RefInv(s) && a in s.held && a in s.items
    ensures RefInv(DeferDelete(s, a, deadline))
  {}

  lemma DeferDeletes(s: State, a: Addr, deadline: nat)
    requires DeleteInv(s) && a in s.items
    ensures DeleteInv(DeferDelete(s, a, deadline))
  {}

  lemma DeferSound(s: State, a: Addr, deadline: nat)
    requires Inv(s) && a in s.held && a in s.items
    ensures Sound(s, DeferDelete(s, a, deadline))
  {
    hide TableInv, LruInv, CasInv, RefInv, DeleteInv, TimeInv, StatInv, CasHistory, LinkHistory, DeferDelete;
    DeferRefs(s, a, deadline);
    DeferDeletes(s, a, deadline);
    DeferLinks(s, a, deadline);
    DeferHistory(s, a, deadline);
  }

  lemma DeferLinks(s: State, a: Addr, deadline: nat)
    requires Inv(s) && a in s.items
    ensures var s' := DeferDelete(s, a, deadline);
      TableInv(s') && LruInv(s') && TimeInv(s') && StatInv(s') && CasInv(s')
  {
    hide TableInv, LruInv, CasInv, RefInv, DeleteInv, TimeInv, StatInv;
    LinksFrame(s, DeferDelete(s, a, deadline));
    CasFrame(s, DeferDelete(s, a, deadline));
  }

  lemma DeferHistory(s: State, a: Addr, deadline: nat)
    requires StatInv(s) && a in s.items
    ensures CasHistory(s, DeferDelete(s, a, deadline)) && LinkHistory(s, DeferDelete(s, a, deadline))
  {
    hide CasHistory, LinkHistory;
    Unchanged(s, DeferDelete(s, a, deadline));
  }

  lemma DequeueRefs(s: State, i: nat)
    requires RefInv(s) && i < |s.todelete| && s.todelete[i] in s.items
    ensures RefInv(Dequeue(s, i))
  {
    assert s.todelete == s.todelete[..i] + [s.todelete[i]] + s.todelete[i + 1..];
    assert multiset(s.todelete) == multiset(Dequeue(s, i).todelete) + multiset{s.todelete[i]};
  }

  lemma DequeueDeletes(s: State, i: nat)
    requires DeleteInv(s) && i < |s.todelete| && s.todelete[i] in s.items
    ensures DeleteInv(Dequeue(s, i))
  {
    hide ProperQueue;
    DequeuedFacts(s.todelete, i);
    if ProperQueue(s) { DequeueProper(s, i); }
  }

  lemma DequeuedFacts(q: seq<Addr>, i: nat)
    requires i < |q|
    ensures forall b :: b in q && b != q[i] ==> b in q[..i] + q[i + 1..]
    ensures forall b :: b in q[..i] + q[i + 1..] ==> b in q
  {
    assert q == q[..i] + [q[i]] + q[i + 1..];
  }

  lemma DequeueProper(s: State, i: nat)
    requires ProperQueue(s) && i < |s.todelete| && s.todelete[i] in s.items
    ensures ProperQueue(Dequeue(s, i))
  {
    var q, r := s.todelete, Dequeue(s, i).todelete;
    DequeuedFacts(q, i);
    assert forall k :: 0 <= k < |r| ==> r[k] == q[if k < i then k else k + 1];
  }

  lemma DequeueSound(s: State, i: nat)
    requires Inv(s) && i < |s.todelete| && s.todelete[i] in s.items
    ensures Sound(s, Dequeue(s, i))
  {
    hide TableInv, LruInv, CasInv, RefInv, DeleteInv, TimeInv, StatInv, CasHistory, LinkHistory;
    var s1 := Dequeue(s, i);
    DequeueRefs(s, i);
    DequeueDeletes(s, i);
    LinksFrame(s, s1); CasFrame(s, s1); Unchanged(s, s1);
  }

  /** A due entry still has its reference, as do_run_deferred_deletes asserts; reaping it drops that
      reference and touches no other entry. */
  lemma ReapSound(s: State, i: nat)
    requires Inv(s) && i < |s.todelete|
    ensures s.todelete[i] in s.items && s.items[s.todelete[i]].refcount > 0
    ensures Sound(s, ReapEntry(s, i)) && ReapEntry(s, i).held == s.held
  {
    hide TableInv, LruInv, CasInv, RefInv, DeleteInv, TimeInv, StatInv, CasHistory, LinkHistory;
    EntryFacts(s, i);
    var a := s.todelete[i];
    var s1 := Dequeue(s, i);
    DequeueSound(s, i);
    UnlinkSound(s1, a);
    UnlinkFacts(s1, a);
    Transitive(s, s1, UnlinkItem(s1, a));
    RemoveSound(UnlinkItem(s1, a), a);
    Transitive(s, UnlinkItem(s1, a), ReapEntry(s, i));
    assert s.held + multiset{a} - multiset{a} == s.held;
  }

  lemma UnlinkFrame(s: State, a: Addr)
    ensures var r := UnlinkItem(s, a);
      && r.todelete == s.todelete && r.now == s.now && r.oldestLive == s.oldestLive
      && forall b :: b in s.items && b != a ==> b in r.items && r.items[b] == s.items[b]
  {}

  lemma RemoveFrame(s: State, a: Addr)
    ensures var r := RemoveItem(s, a);
      && r.todelete == s.todelete && r.now == s.now && r.oldestLive == s.oldestLive
      && forall b :: b in s.items && b != a ==> b in r.items && r.items[b] == s.items[b]
  {}

  lemma ReapFrame(s: State, i: nat)
    requires i < |s.todelete| && s.todelete[i] in s.items
    ensures var r := ReapEntry(s, i);
      && r.todelete == s.todelete[..i] + s.todelete[i + 1..] && r.now == s.now
      && forall b :: b in s.items && b != s.todelete[i] ==> b in r.items && r.items[b] == s.items[b]
  {
    hide UnlinkItem, RemoveItem;
    var a := s.todelete[i];
    UnlinkFrame(Dequeue(s, i), a);
    RemoveFrame(UnlinkItem(Dequeue(s, i), a), a);
  }

  lemma EntryFacts(s: State, i: nat)
    requires RefInv(s) && i < |s.todelete|
    ensures s.todelete[i] in s.items && s.items[s.todelete[i]].refcount > 0
    ensures forall b :: b in s.todelete ==> b in s.items
  {
    assert s.todelete[i] in s.todelete;
    assert multiset(s.todelete)[s.todelete[i]] > 0;
  }

  lemma {:induction false} RunDeferredSound(s: State, i: nat)
    requires Inv(s) && i <= |s.todelete|
    requires forall k :: 0 <= k < i ==> s.todelete[k] in s.items && !LockOver(s.items[s.todelete[k]], s.now)
    ensures var s' := RunDeferred(s, i);
      && Sound(s, s') && s'.held == s.held
      && forall a :: a in s'.todelete ==> a in s'.items && !LockOver(s'.items[a], s.now)
    decreases |s.todelete| - i
  {
    hide TableInv, LruInv, CasInv, RefInv, DeleteInv, TimeInv, StatInv, CasHistory, LinkHistory, ReapEntry, LockOver;
    Unchanged(s, s);
    if i < |s.todelete| {
      EntryFacts(s, i);
      if LockOver(s.items[s.todelete[i]], s.now) {
        ReapSound(s, i);
        var s1 := ReapEntry(s, i);
        ReapFrame(s, i);
        assert forall k :: 0 <= k < i ==> s1.todelete[k] == s.todelete[k] && s1.todelete[k] in s1.todelete;
        RunDeferredSound(s1, i);
        Transitive(s, s1, RunDeferred(s1, i));
      } else {
        RunDeferredSound(s, i + 1);
      }
    }
  }

  // ----- do_item_flush_expired

  lemma {:induction false} UnlinkAllSound(s: State, q: seq<Addr>)
    requires Inv(s)
    ensures Sound(s, UnlinkAll(s, q)) && UnlinkAll(s, q).held == s.held
    ensures UnlinkAll(s, q).now == s.now && UnlinkAll(s, q).oldestLive == s.oldestLive
    decreases |q|
  {
    hide TableInv, LruInv, CasInv, RefInv, DeleteInv, TimeInv, StatInv, CasHistory, LinkHistory;
    Unchanged(s, s);
    if q != [] {
      var s1 := UnlinkItem(s, q[0]);
      UnlinkSound(s, q[0]);
      UnlinkFacts(s, q[0]);
      UnlinkAllSound(s1, q[1..]);
      Transitive(s, s1, UnlinkAll(s, q));
    }
  }

  lemma {:induction false} FlushFromSound(s: State, c: nat)
    requires Inv(s)
    ensures Sound(s, FlushFrom(s, c)) && FlushFrom(s, c).held == s.held
    ensures FlushFrom(s, c).now == s.now && FlushFrom(s, c).oldestLive == s.oldestLive
    decreases LARGEST_ID - c
  {
    hide TableInv, LruInv, CasInv, RefInv, DeleteInv, TimeInv, StatInv, CasHistory, LinkHistory;
    Unchanged(s, s);
    if c < LARGEST_ID {
      var s1 := UnlinkAll(s, FlushPrefix(s.items, Queue(s, c), s.oldestLive));
      UnlinkAllSound(s, FlushPrefix(s.items, Queue(s, c), s.oldestLive));
      FlushFromSound(s1, c + 1);
      Transitive(s, s1, FlushFrom(s1, c + 1));
    }
  }

  /** Every item of list `c` is older than the flush time. */
  ghost predicate Older(s: State, c: nat) {
    && c < |s.lru|
    && forall i :: 0 <= i < |s.lru[c]| ==> s.lru[c][i] in s.items && s.items[s.lru[c][i]].time < s.oldestLive
  }

  /** `s'` has lost nothing that is older than the flush time. */
  ghost predicate KeepsOlder(s: State, s': State) {
    && s'.oldestLive == s.oldestLive
    && forall a :: a in s.items && s.items[a].linked && s.items[a].time < s.oldestLive ==>
        a in s'.items && s'.items[a] == s.items[a]
  }

  lemma {:induction false} FlushPrefixFrame(items: map<Addr, Item>, items': map<Addr, Item>, q: seq<Addr>, t: nat)
    requires forall i :: 0 <= i < |q| ==> q[i] in items && q[i] in items' && items'[q[i]] == items[q[i]]
    ensures FlushPrefix(items', q, t) == FlushPrefix(items, q, t)
  {
    if q != [] {
      FlushPrefixFrame(items, items', q[1..], t);
    }
  }

  /** Unlinking the head of a list drops it from that list and touches no other item or list. */
  lemma UnlinkHead(s: State, c: nat)
    requires LruInv(s) && TableInv(s) && c < LARGEST_ID && s.lru[c] != []
    ensures var s' := UnlinkItem(s, s.lru[c][0]);
      && |s'.lru| == LARGEST_ID && s'.lru[c] == s.lru[c][1..]
      && (forall d :: 0 <= d < LARGEST_ID && d != c ==> s'.lru[d] == s.lru[d])
      && (forall i :: 0 <= i < |s'.lru[c]| ==>
          s'.lru[c][i] in s.items && s'.lru[c][i] in s'.items && s'.items[s'.lru[c][i]] == s.items[s'.lru[c][i]])
      && (forall a :: a in s.items && a != s.lru[c][0] ==> a in s'.items && s'.items[a] == s.items[a])
      && s'.oldestLive == s.oldestLive
  {}

  lemma HeadFacts(s: State, c: nat)
    requires LruInv(s) && TimeInv(s) && c < LARGEST_ID
    ensures |s.lru| == LARGEST_ID
    ensures forall i :: 0 <= i < |s.lru[c]| ==>
      s.lru[c][i] in s.items && s.items[s.lru[c][i]].time <= s.items[s.lru[c][0]].time
  {
    assert ByTime(s.items, s.lru[c]);
  }

  lemma {:induction false} FlushClassFacts(s: State, c: nat)
    requires Inv(s) && c < LARGEST_ID
    ensures |s.lru| == LARGEST_ID
    ensures var s' := UnlinkAll(s, FlushPrefix(s.items, s.lru[c], s.oldestLive));
      && |s'.lru| == LARGEST_ID && Older(s', c) && KeepsOlder(s, s')
      && forall d :: 0 <= d < LARGEST_ID && d != c && Older(s, d) ==> Older(s', d)
    decreases if c < |s.lru| then |s.lru[c]| else 0
  {
    hide TableInv, LruInv, CasInv, RefInv, DeleteInv, TimeInv, StatInv, CasHistory, LinkHistory, UnlinkItem;
    HeadFacts(s, c);
    var q := s.lru[c];
    if q != [] && s.items[q[0]].time >= s.oldestLive {
      var s1 := UnlinkItem(s, q[0]);
      UnlinkKeeps(s, q[0]);
      UnlinkHead(s, c);
      FlushPrefixFrame(s.items, s1.items, q[1..], s.oldestLive);
      assert FlushPrefix(s.items, q, s.oldestLive)[1..] == FlushPrefix(s1.items, s1.lru[c], s1.oldestLive);
      FlushClassFacts(s1, c);
      OlderAfterUnlink(s, c);
    }
  }

  /** Removing an item that is on list `c` cannot spoil another list. */
  lemma OlderAfterUnlink(s: State, c: nat)
    requires LruInv(s) && TableInv(s) && c < LARGEST_ID && s.lru[c] != []
    ensures var s' := UnlinkItem(s, s.lru[c][0]);
      forall d :: 0 <= d < LARGEST_ID && d != c && Older(s, d) ==> Older(s', d)
  {
    UnlinkHead(s, c);
    var s' := UnlinkItem(s, s.lru[c][0]);
    forall d | 0 <= d < LARGEST_ID && d != c && Older(s, d) ensures Older(s', d) {
      forall i | 0 <= i < |s'.lru[d]| ensures s'.lru[d][i] in s'.items && s'.items[s'.lru[d][i]].time < s'.oldestLive {
        assert s.items[s.lru[d][i]].cls == d;
      }
    }
  }

  lemma {:induction false} FlushFromFacts(s: State, c: nat)
    requires Inv(s) && c <= LARGEST_ID && forall d :: 0 <= d < c ==> Older(s, d)
    ensures var s' := FlushFrom(s, c); KeepsOlder(s, s') && forall d :: 0 <= d < LARGEST_ID ==> Older(s', d)
    decreases LARGEST_ID - c
  {
    hide TableInv, LruInv, CasInv, RefInv, DeleteInv, TimeInv, StatInv, CasHistory, LinkHistory, Older;
    if c < LARGEST_ID {
      FlushClassFacts(s, c);
      var s1 := UnlinkAll(s, FlushPrefix(s.items, s.lru[c], s.oldestLive));
      UnlinkAllSound(s, FlushPrefix(s.items, s.lru[c], s.oldestLive));
      FlushFromFacts(s1, c + 1);
    }
  }

  lemma OlderLinked(s: State)
    requires LruInv(s) && forall d :: 0 <= d < LARGEST_ID ==> Older(s, d)
    ensures forall a :: a in s.items && s.items[a].linked ==> s.items[a].time < s.oldestLive
  {
    forall a | a in s.items && s.items[a].linked ensures s.items[a].time < s.oldestLive {
      var c := s.items[a].cls;
      assert Older(s, c);
      var i :| 0 <= i < |s.lru[c]| && s.lru[c][i] == a;
    }
  }

  /** do_item_flush_expired leaves linked exactly the items older than the flush time: because each list
      is sorted by time, stopping at the first old item misses nothing. */
  lemma FlushExact(s: State)
    requires Inv(s) && s.oldestLive != 0
    ensures var s' := FlushExpired(s);
      && Inv(s')
      && (forall a :: a in s'.items && s'.items[a].linked ==>
          a in s.items && s.items[a].linked && s'.items[a].time < s.oldestLive)
      && (forall a :: a in s.items && s.items[a].linked && s.items[a].time < s.oldestLive ==>
          a in s'.items && s'.items[a] == s.items[a])
  {
    hide TableInv, LruInv, CasInv, RefInv, DeleteInv, TimeInv, StatInv, CasHistory, Older;
    FlushFromSound(s, 0);
    FlushFromFacts(s, 0);
    OlderLinked(FlushFrom(s, 0));
    StampFacts(FlushFrom(s, 0));
    assert FlushFrom(s, 0).totalItems == s.totalItems by { FlushCounters(s, 0); }
  }

  lemma StampFacts(s: State)
    requires StatInv(s)
    ensures forall a :: a in s.items && s.items[a].linked ==> s.items[a].stamp <= s.totalItems
  {}

  lemma {:induction false} UnlinkAllCounters(s: State, q: seq<Addr>)
    ensures UnlinkAll(s, q).totalItems == s.totalItems && UnlinkAll(s, q).casCounter == s.casCounter
    ensures UnlinkAll(s, q).badLock == s.badLock
    decreases |q|
  {
    if q != [] { UnlinkAllCounters(UnlinkItem(s, q[0]), q[1..]); }
  }

  lemma {:induction false} FlushCounters(s: State, c: nat)
    ensures FlushFrom(s, c).totalItems == s.totalItems && FlushFrom(s, c).casCounter == s.casCounter
    ensures FlushFrom(s, c).badLock == s.badLock
    decreases LARGEST_ID - c
  {
    if c < LARGEST_ID {
      var q := FlushPrefix(s.items, Queue(s, c), s.oldestLive);
      UnlinkAllCounters(s, q);
      FlushCounters(UnlinkAll(s, q), c + 1);
    }
  }
}
