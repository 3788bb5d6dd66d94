/** The commands of CacheCommands, as memcached.c runs them on the engine: every command leaves the engine in the state
    that its Step gives. */
module CacheServer {
  import opened Basics
  import opened CacheSpec
  import opened CacheInvariant
  import opened CacheRuns
  import opened CacheCommands
  import opened Cache
  import opened Counters

  /** process_update_command: room for the item, or at least the old value is dropped. */
  method ProcessUpdate(e: CacheEngine, key: Bytes, exptime: int, comm: StoreCommand, cas: nat, nsuffix: nat,
                       stale: Item, malloced: Addr)
    returns (it: Addr, ghost o: Allocation)
    requires e.Valid() && e.PageOk(malloced) && |stale.data| >= 2
    modifies e, e.assoc, e.lru, e.slabs
    ensures e.Valid() && o.stale == stale
    ensures var c := Begin(key, Realtime(exptime, old(e.now), old(e.started)), comm, cas, o);
      && (Repair(old(e.Abs()), o).None? ==> Enabled(old(e.Abs()), c)) && e.Abs() == Step(old(e.Abs()), c)
    ensures it != NULL ==> it in e.held && it in e.items && !e.items[it].linked && |e.items[it].data| == |stale.data|
  {
    hide CacheEngine.Parts, Inv, CasHistory, LinkHistory, AllocItem, AllocationOk, Realtime, UnlinkItem, RemoveItem;
    hide Repair;
    ghost var s := e.Abs();
    var time := Realtime(exptime, e.now, e.started);
    it, o := e.DoItemAlloc(key, nsuffix, time, stale, malloced);
    AllocSound(s, key, time, o, |stale.data|);
    if it == NULL {
      if comm == Set {
        DropFoundSteps(e.Abs(), key);
        var prior, locked := e.DoItemGetNotedeleted(key);
        if prior != NULL {
          e.DoItemUnlink(prior);
          e.DoItemRemove(prior);
        }
      }
    } else if comm == Cas {
      e.SetCasId(it, cas);
    }
  }

  /** A found item can be unlinked and released. */
  lemma DropFoundSteps(s: State, key: Bytes)
    requires Inv(s)
    ensures var g := GetItem(s, key);
      g.found.Some? ==>
        && g.found.value in g.state.items && g.found.value in g.state.held
        && g.found.value in UnlinkItem(g.state, g.found.value).held
  {
    hide TableInv, LruInv, CasInv, RefInv, DeleteInv, TimeInv, StatInv;
    GetKeeps(s, key);
  }

  /** The data block has arrived in the item. */
  method ReceiveData(e: CacheEngine, it: Addr, data: Bytes)
    requires e.Valid() && Enabled(e.Abs(), Receive(it, data))
    modifies e
    ensures e.Valid() && e.Abs() == Step(old(e.Abs()), Receive(it, data))
  {
    hide CacheEngine.Parts, Inv;
    DataLong(e.Abs(), it);
    e.WriteData(it, data);
  }

  lemma DataLong(s: State, a: Addr)
    requires Inv(s) && a in s.items
    ensures |s.items[a].data| >= 2
  {
    RefData(s);
  }

  /** complete_nread: a block that ends in CR LF is stored; the item is released in any case. */
  method CompleteNread(e: CacheEngine, it: Addr, comm: StoreCommand, nsuffix: nat, stale: nat -> Item, malloced: Addr)
    returns (stored: Option<StoreResult>, ghost o: Allocation)
    requires e.Valid() && e.PageOk(malloced) && it in e.held && it in e.items && !e.items[it].linked
    requires forall n :: |stale(n).data| == n
    modifies e, e.assoc, e.lru, e.slabs
    ensures e.Valid()
    ensures var c := if EndsLine(old(e.items)[it].data) then Complete(it, comm, o) else Release(it);
      && (Repair(GetItem(old(e.Abs()), old(e.items)[it].key).state, o).None? ==> Enabled(old(e.Abs()), c))
      && e.Abs() == Step(old(e.Abs()), c)
    ensures stored ==
      if EndsLine(old(e.items)[it].data) then Some(StoreItem(old(e.Abs()), it, comm, o).result) else None
  {
    hide CacheEngine.Parts, Inv, CasHistory, LinkHistory, StoreItem, StoreAllocationOk, RemoveItem, Repair;
    ghost var s := e.Abs();
    stored, o := None, Allocation(0, 0, None, None, e.items[it]);
    DataLong(s, it);
    if EndsLine(e.items[it].data) {
      var result;
      result, o := e.DoStoreItem(it, comm, nsuffix, stale, malloced);
      stored := Some(result);
      StoreSound(s, it, comm, o);
    }
    e.DoItemRemove(it);
  }

  /** process_get_command, for one key. `room` says that the lists of the connection take the item; its reference then
      lasts until the reply is sent. */
  method ProcessGet(e: CacheEngine, key: Bytes, room: bool) returns (it: Addr)
    requires e.Valid()
    modifies e, e.assoc, e.lru, e.slabs
    ensures e.Valid() && e.Abs() == Step(old(e.Abs()), Get(key, room))
    ensures GetItem(old(e.Abs()), key).found == if it == NULL then None else Some(it)
  {
    hide CacheEngine.Parts, Inv, UpdateItem, RemoveItem, GetItem;
    FoundHeld(e.Abs(), key);
    var locked;
    it, locked := e.DoItemGetNotedeleted(key);
    if it != NULL {
      if !room {
        e.DoItemRemove(it);
      } else {
        e.DoItemUpdate(it);
      }
    }
  }

  lemma FoundHeld(s: State, key: Bytes)
    requires Inv(s)
    ensures var g := GetItem(s, key);
      g.found.Some? ==> var a := g.found.value;
        && a in s.items && a in g.state.items && a in g.state.held && g.state.items[a].linked
        && g.state.items[a].data == s.items[a].data
  {
    hide TableInv, LruInv, CasInv, RefInv, DeleteInv, TimeInv, StatInv;
    GetKeeps(s, key);
  }

  /** The reply is sent. */
  method ReleaseItem(e: CacheEngine, it: Addr)
    requires e.Valid() && Enabled(e.Abs(), Release(it))
    modifies e, e.slabs
    ensures e.Valid() && e.Abs() == Step(old(e.Abs()), Release(it))
  {
    hide CacheEngine.Parts, Inv;
    e.DoItemRemove(it);
  }

  /** process_delete_command. A delayed delete that the full queue has no place for only looks the item up and releases
      it; `grows` says that the queue can grow. */
  method ProcessDelete(e: CacheEngine, key: Bytes, delay: int, grows: bool) returns (found: bool, queued: bool)
    requires e.Valid()
    modifies e, e.assoc, e.lru, e.slabs
    ensures e.Valid() && found == GetItem(old(e.Abs()), key).found.Some?
    ensures (queued ==> found && delay != 0) && (found && delay != 0 && grows ==> queued)
    ensures e.Abs() ==
      Step(old(e.Abs()), if found && delay != 0 && !queued then Get(key, false) else Delete(key, delay))
  {
    hide CacheEngine.Parts, Inv, UnlinkItem, RemoveItem, DeferDelete, Realtime, GetItem;
    ghost var s := e.Abs();
    FoundHeld(s, key);
    DropFoundSteps(s, key);
    GetClock(s, key);
    var it, locked := e.DoItemGetNotedeleted(key);
    found, queued := it != NULL, false;
    if it != NULL {
      if delay == 0 {
        e.DoItemUnlink(it);
        e.DoItemRemove(it);
      } else {
        queued := e.DoDeferDelete(it, Realtime(delay, e.now, e.started), grows);
      }
    }
  }

  lemma GetClock(s: State, key: Bytes)
    ensures GetItem(s, key).state.now == s.now && GetItem(s, key).state.started == s.started
  {}

  /** process_arithmetic_command, with a delta in range. */
  method ProcessArithmetic(e: CacheEngine, key: Bytes, incr: bool, delta: int, errnoSet: bool, nsuffix: nat,
                           stale: nat -> Item, malloced: Addr)
    returns (found: bool, ghost text: Option<Bytes>, ghost o: Allocation)
    requires e.Valid() && e.PageOk(malloced) && forall n :: |stale(n).data| == n
    modifies e, e.assoc, e.lru, e.slabs
    ensures e.Valid()
    ensures Repair(GetItem(old(e.Abs()), key).state, o).None? ==> Enabled(old(e.Abs()), Arithmetic(key, text, o))
    ensures e.Abs() == Step(old(e.Abs()), Arithmetic(key, text, o))
    ensures var g := GetItem(old(e.Abs()), key);
      && found == g.found.Some?
      && (found ==>
          && g.found.value in old(e.items)
          && text == Calculated(incr, delta, errnoSet, old(e.items)[g.found.value].data))
  {
    hide CacheEngine.Parts, Inv, CasHistory, LinkHistory, AddDelta, RemoveItem, GetItem, AllocationOk, Calculated;
    hide Repair;
    ghost var s := e.Abs();
    FoundHeld(s, key);
    var it, locked := e.DoItemGetNotedeleted(key);
    found, text, o := it != NULL, None, Allocation(0, 0, None, None, stale(0));
    if it != NULL {
      var printed := Calculated(incr, delta, errnoSet, e.items[it].data);
      text := printed;
      ghost var s1 := e.Abs();
      if printed.Some? {
        o := e.DoAddDelta(it, printed.value, nsuffix, stale(|printed.value| + 2), malloced);
        DeltaSound(s1, it, printed.value, o);
      }
      e.DoItemRemove(it);
    }
  }

  /** flush_all. */
  method ProcessFlushAll(e: CacheEngine, delay: int)
    requires e.Valid()
    modifies e, e.assoc, e.lru, e.slabs
    ensures e.Valid() && e.Abs() == Step(old(e.Abs()), FlushAll(delay))
  {
    hide CacheEngine.Parts, Inv, Realtime, FlushExpired;
    if delay > 0 {
      e.SetOldestLive((Realtime(delay, e.now, e.started) - 1) % UINT32);
    } else {
      e.SetOldestLive((e.now - 1) % UINT32);
    }
    e.DoItemFlushExpired();
  }

  /** The five-second timer. */
  method DeleteHandler(e: CacheEngine)
    requires e.Valid()
    modifies e, e.assoc, e.lru, e.slabs
    ensures e.Valid() && e.Abs() == Step(old(e.Abs()), RunDeferredDeletes)
  {
    hide CacheEngine.Parts, Inv;
    e.DoRunDeferredDeletes();
  }

  /** The clock event. */
  method ClockHandler(e: CacheEngine, time: nat)
    requires e.Valid() && Enabled(e.Abs(), Tick(time))
    modifies e
    ensures e.Valid() && e.Abs() == Step(old(e.Abs()), Tick(time))
  {
    hide CacheEngine.Parts, Inv;
    e.SetCurrentTime(time);
  }
}
