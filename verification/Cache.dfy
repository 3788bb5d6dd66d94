/** The engine itself: item headers, the hash table, the LRU lists and the slab allocator working together.
    Every method is proved to compute its function of CacheSpec and to keep the joint invariant. */
module Cache {
  import opened Basics
  import opened CacheSpec
  import opened CacheInvariant
  import opened CacheRuns
  import opened CacheCommands
  import opened Assoc
  import opened LruQueues
  import opened Slabs

  // ----- How the parts agree

  /** The key bytes assoc.c reads are the keys of the items. */
  ghost predicate KeysAgree(items: map<Addr, Item>, keyOf: map<Addr, Bytes>) {
    forall a :: a in items ==> a in keyOf && keyOf[a] == items[a].key
  }

  /** The LRU lists thread exactly the linked items. */
  ghost predicate ListsAgree(items: map<Addr, Item>, where: map<Addr, nat>) {
    && (forall a :: a in where ==> a in items && items[a].linked)
    && (forall a :: a in items && items[a].linked ==> a in where)
  }

  /** Every item occupies an allocated chunk of its class that is large enough, and every allocated chunk holds an
      item. */
  ghost predicate ChunksAgree(items: map<Addr, Item>, inUse: seq<set<Addr>>, classes: seq<SlabClass>, largest: nat) {
    && |inUse| == |classes| == POWER_LARGEST + 1 && largest <= POWER_LARGEST
    && (forall a :: a in items ==>
      && POWER_SMALLEST <= items[a].cls <= largest && a in inUse[items[a].cls]
      && items[a].total <= classes[items[a].cls].size)
    && (forall c, a :: 0 <= c < |inUse| && a in inUse[c] ==> a in items && items[a].cls == c)
  }

  /** Rewriting headers without touching keys, links, classes or sizes. */
  ghost predicate SameShape(items: map<Addr, Item>, items': map<Addr, Item>) {
    && items'.Keys == items.Keys
    && forall a :: a in items ==>
      && items'[a].key == items[a].key && items'[a].linked == items[a].linked
      && items'[a].cls == items[a].cls && items'[a].total == items[a].total
  }

  /** Linking or unlinking one item, in its header and in the lists. */
  lemma ShapeSet(items: map<Addr, Item>, items': map<Addr, Item>, keyOf: map<Addr, Bytes>,
                 where: map<Addr, nat>, where': map<Addr, nat>,
                 inUse: seq<set<Addr>>, classes: seq<SlabClass>, largest: nat, it: Addr)
    requires KeysAgree(items, keyOf) && ListsAgree(items, where) && ChunksAgree(items, inUse, classes, largest)
    requires it in items && it in items' && items'[it].linked == (it in where')
    requires items' == items[it := items'[it]] && (where'.Keys == where.Keys - {it} || where'.Keys == where.Keys + {it})
    requires items'[it].key == items[it].key && items'[it].cls == items[it].cls && items'[it].total == items[it].total
    ensures KeysAgree(items', keyOf) && ListsAgree(items', where') && ChunksAgree(items', inUse, classes, largest)
  {}

  /** Giving a chunk back. */
  lemma ShapeFree(items: map<Addr, Item>, keyOf: map<Addr, Bytes>, where: map<Addr, nat>,
                  inUse: seq<set<Addr>>, inUse': seq<set<Addr>>, classes: seq<SlabClass>, classes': seq<SlabClass>,
                  largest: nat, it: Addr)
    requires KeysAgree(items, keyOf) && ListsAgree(items, where) && ChunksAgree(items, inUse, classes, largest)
    requires it in items && !items[it].linked && items[it].cls < |inUse|
    requires inUse' == inUse[items[it].cls := inUse[items[it].cls] - {it}] && SameSizes(classes, classes')
    ensures KeysAgree(items - {it}, keyOf) && ListsAgree(items - {it}, where)
    ensures ChunksAgree(items - {it}, inUse', classes', largest)
  {}

  lemma ShapeOne(items: map<Addr, Item>, it: Addr, x: Item)
    requires it in items && x.key == items[it].key && x.linked == items[it].linked
    requires x.cls == items[it].cls && x.total == items[it].total
    ensures SameShape(items, items[it := x])
  {}

  /** SameShape is enough for all three agreements. */
  lemma ShapeFrame(items: map<Addr, Item>, items': map<Addr, Item>, keyOf: map<Addr, Bytes>, where: map<Addr, nat>,
                   inUse: seq<set<Addr>>, classes: seq<SlabClass>, largest: nat)
    requires SameShape(items, items')
    requires KeysAgree(items, keyOf) && ListsAgree(items, where) && ChunksAgree(items, inUse, classes, largest)
    ensures KeysAgree(items', keyOf) && ListsAgree(items', where) && ChunksAgree(items', inUse, classes, largest)
  {}

  lemma ItemFacts(s: State, a: Addr)
    requires RefInv(s) && LruInv(s) && a in s.items
    ensures a != NULL && s.items[a].cls < LARGEST_ID && |s.lru| == LARGEST_ID
    ensures s.items[a].linked ==> a in s.lru[s.items[a].cls]
  {}

  const DELETE_LIST_INITIAL: nat := 200

  class CacheEngine {
    const assoc: AssocTable
    const lru: LruLists
    const slabs: SlabAllocator
    var items: map<Addr, Item>
    var casId: nat
    var todelete: seq<Addr>
    var deltotal: nat
    var now: nat
    var started: nat
    var oldestLive: nat
    var evictToFree: bool
    var currItems: int
    var currBytes: int
    var totalItems: nat
    ghost var held: multiset<Addr>
    ghost var badLock: bool

    /** The state CacheSpec talks about. */
    ghost function Abs(): State
      reads this, assoc, lru
    {
      State(items, assoc.contents, lru.lists, casId, todelete, held, badLock, now, started, oldestLive, evictToFree,
        currItems, currBytes, totalItems)
    }

    /** The three data structures are sound and agree on the items. */
    ghost predicate Parts()
      reads this`items, assoc, lru, slabs
    {
      && assoc.Valid() && lru.Valid() && slabs.Valid()
      && KeysAgree(items, assoc.keyOf) && ListsAgree(items, lru.where)
      && ChunksAgree(items, slabs.inUse, slabs.classes, slabs.powerLargest)
    }

    ghost predicate Valid()
      reads this, assoc, lru, slabs
    {
      Parts() && Inv(Abs()) && |todelete| <= deltotal && deltotal > 0
    }

    constructor (hv: Bytes -> nat, limit: nat, factor: real, chunkSize: nat, base: Addr, now: nat, started: nat,
        evictToFree: bool)
      requires factor > 1.0
      ensures Valid() && Abs() == Initial(now, started, evictToFree)
    {
      hide TableInv, LruInv, CasInv, RefInv, DeleteInv, TimeInv, StatInv, AssocTable.Valid, LruLists.Valid;
      hide SlabAllocator.Valid;
      hide SizesOk, Inv;
      assoc := new AssocTable(hv);
      lru := new LruLists();
      slabs := new SlabAllocator(limit, factor, ITEM_HEADER + chunkSize, base);
      items, casId, todelete, deltotal := map[], 0, [], DELETE_LIST_INITIAL;
      this.now, this.started, oldestLive, this.evictToFree := now, started, 0, evictToFree;
      currItems, currBytes, totalItems := 0, 0, 0;
      held, badLock := multiset{}, false;
      new;
      InitialInv(now, started, evictToFree);
      AllocatorShape();
      assert Abs() == Initial(now, started, evictToFree);
      assert KeysAgree(items, assoc.keyOf) && ListsAgree(items, lru.where);
      assert ChunksAgree(items, slabs.inUse, slabs.classes, slabs.powerLargest);
      assert Parts();
    }

    lemma AllocatorShape()
      requires slabs.Valid()
      ensures |slabs.inUse| == |slabs.classes| == POWER_LARGEST + 1 && slabs.powerLargest <= POWER_LARGEST
    {}

    /** hash_items, curr_items, curr_bytes and sizes[] agree with what is linked. */
    lemma CountersAgree()
      requires Valid()
      ensures assoc.hashItems == currItems == |Linked(Abs())|
      ensures currBytes == Totals(items, Linked(Abs()))
      ensures forall c :: 0 <= c < LARGEST_ID ==>
        |lru.sizes| == |lru.lists| == LARGEST_ID && lru.sizes[c] == |lru.lists[c]|
    {
      hide TableInv, LruInv, CasInv, RefInv, DeleteInv, TimeInv, SlabAllocator.Valid, Implements;
      ItemCount(assoc.View());
    }

    // ----- items.c

    /** do_item_link. */
    method DoItemLink(it: Addr)
      requires Valid() && Linkable(Abs(), it)
      modifies this, assoc, lru
      ensures Valid() && Abs() == LinkItem(old(Abs()), it)
    {
      hide TableInv, LruInv, CasInv, RefInv, DeleteInv, TimeInv, StatInv, Parts;
      ghost var s := Abs();
      LinkKeeps(s, it);
      ItemFacts(s, it);
      LinkParts(it);
      assert Abs() == LinkItem(s, it);
    }

    /** The writes of do_item_link: header, hash table, statistics and list. */
    method LinkParts(it: Addr)
      requires Parts() && it in items && !items[it].linked && it != NULL && items[it].cls < LARGEST_ID
      requires items[it].key !in assoc.contents && |lru.lists| == LARGEST_ID
      modifies this`items, this`currBytes, this`currItems, this`totalItems, this`casId, assoc, lru
      ensures Parts()
      ensures items == old(items)[it := old(items)[it].(linked := true, time := now, cas := casId, stamp := totalItems)]
      ensures assoc.contents == old(assoc.contents)[old(items)[it].key := it]
      ensures lru.lists == old(lru.lists)[old(items)[it].cls := [it] + old(lru.lists)[old(items)[it].cls]]
      ensures currBytes == old(currBytes) + old(items)[it].total && currItems == old(currItems) + 1
      ensures totalItems == old(totalItems) + 1 && casId == old(casId) + 1
    {
      hide AssocTable.Valid, LruLists.Valid, SlabAllocator.Valid, KeysAgree, ListsAgree, ChunksAgree;
      ghost var before, where := items, lru.where;
      KeyOfItem(it);
      items := items[it := items[it].(linked := true, time := now)];
      assoc.Insert(it);
      CountLink(it);
      lru.LinkQ(it, items[it].cls);
      ShapeSet(before, items, assoc.keyOf, where, lru.where, slabs.inUse, slabs.classes, slabs.powerLargest, it);
    }

    /** The statistics, the CAS id and the position in the link order of a new link. */
    method CountLink(it: Addr)
      requires it in items
      modifies this`items, this`currBytes, this`currItems, this`totalItems, this`casId
      ensures currBytes == old(currBytes) + old(items)[it].total && currItems == old(currItems) + 1
      ensures totalItems == old(totalItems) + 1 && casId == old(casId) + 1
      ensures items == old(items)[it := old(items)[it].(cas := casId, stamp := totalItems)]
    {
      currBytes := currBytes + items[it].total;
      currItems := currItems + 1;
      totalItems := totalItems + 1;
      casId := casId + 1;
      items := items[it := items[it].(cas := casId, stamp := totalItems)];
    }

    lemma KeyOfItem(a: Addr)
      requires KeysAgree(items, assoc.keyOf) && ListsAgree(items, lru.where) && a in items
      ensures a in assoc.keyOf && assoc.keyOf[a] == items[a].key
      ensures a in lru.where <==> items[a].linked
    {}

    /** item_free: the chunk of an unlinked, unreferenced item goes back to its slab class. */
    method ItemFree(it: Addr)
      requires Parts() && it in items && !items[it].linked && items[it].refcount == 0
      modifies this`items, slabs`classes, slabs`inUse
      ensures Parts() && items == old(items) - {it}
      ensures SamePages(old(slabs.classes), slabs.classes)
      ensures slabs.InRange(old(items[it].cls)) && HasFree(slabs.classes[old(items[it].cls)])
    {
      hide AssocTable.Valid, LruLists.Valid, SlabAllocator.Valid, KeysAgree, ListsAgree, ChunksAgree, SameSizes, Unused;
      ChunkOf(it);
      ghost var inUse, classes := slabs.inUse, slabs.classes;
      slabs.Free(it, items[it].cls);
      ShapeFree(items, assoc.keyOf, lru.where, inUse, slabs.inUse, classes, slabs.classes, slabs.powerLargest, it);
      items := items - {it};
    }

    lemma ChunkOf(a: Addr)
      requires ChunksAgree(items, slabs.inUse, slabs.classes, slabs.powerLargest) && a in items
      ensures slabs.InRange(items[a].cls) && slabs.powerLargest <= POWER_LARGEST && |slabs.inUse| == POWER_LARGEST + 1
      ensures a in slabs.inUse[items[a].cls]
    {}

    /** do_item_unlink. */
    method DoItemUnlink(it: Addr)
      requires Valid() && it in items
      modifies this, assoc, lru, slabs`classes, slabs`inUse
      ensures Valid() && Abs() == UnlinkItem(old(Abs()), it)
      ensures SamePages(old(slabs.classes), slabs.classes)
      ensures old(items[it].linked && items[it].refcount == 0) ==>
        slabs.InRange(old(items[it].cls)) && HasFree(slabs.classes[old(items[it].cls)])
    {
      hide TableInv, LruInv, CasInv, RefInv, DeleteInv, TimeInv, StatInv, AssocTable.Valid, LruLists.Valid;
      hide SlabAllocator.Valid;
      hide KeysAgree, ListsAgree, ChunksAgree;
      ghost var before, where, s := items, lru.where, Abs();
      UnlinkKeeps(s, it);
      if items[it].linked {
        ItemFacts(s, it);
        KeyOfItem(it);
        LinkedKey(s, it);
        items := items[it := items[it].(linked := false)];
        currBytes := currBytes - items[it].total;
        currItems := currItems - 1;
        assoc.Delete(assoc.keyOf[it]);
        lru.UnlinkQ(it, items[it].cls);
        ShapeSet(before, items, assoc.keyOf, where, lru.where, slabs.inUse, slabs.classes, slabs.powerLargest, it);
        assert Abs() == Detach(s, it);
        hide Detach, Unused;
        if items[it].refcount == 0 { ItemFree(it); }
      }
    }

    /** do_item_remove: drop one reference. */
    method DoItemRemove(it: Addr)
      requires Valid() && it in held
      modifies this, slabs`classes, slabs`inUse
      ensures Valid() && Abs() == RemoveItem(old(Abs()), it)
    {
      hide TableInv, LruInv, CasInv, RefInv, DeleteInv, TimeInv, StatInv, AssocTable.Valid, LruLists.Valid;
      hide SlabAllocator.Valid;
      hide KeysAgree, ListsAgree, ChunksAgree, SameShape, CasHistory, LinkHistory;
      ghost var before, s := items, Abs();
      HeldFacts(s, it);
      RemoveKeeps(s, it);
      if items[it].refcount != 0 {
        items := items[it := items[it].(refcount := items[it].refcount - 1)];
      }
      held := held - multiset{it};
      assert Abs() == DropRef(s, it);
      ShapeOne(before, it, items[it]);
      hide DropRef, Unused, HasFree;
      ShapeFrame(before, items, assoc.keyOf, lru.where, slabs.inUse, slabs.classes, slabs.powerLargest);
      if items[it].refcount == 0 && !items[it].linked {
        ItemFree(it);
      }
    }

    /** do_item_update: refresh the item's place in its list, at most once a minute. */
    method DoItemUpdate(it: Addr)
      requires Valid() && it in items
      modifies this`items, lru
      ensures Valid() && Abs() == UpdateItem(old(Abs()), it)
    {
      hide TableInv, LruInv, CasInv, RefInv, DeleteInv, TimeInv, StatInv, AssocTable.Valid, LruLists.Valid;
      hide SlabAllocator.Valid;
      hide KeysAgree, ListsAgree, ChunksAgree;
      ghost var before, where, s := items, lru.where, Abs();
      UpdateKeeps(s, it);
      ItemFacts(s, it);
      KeyOfItem(it);
      if items[it].time < (now - UPDATE_INTERVAL) % UINT32 {
        if items[it].linked {
          lru.UnlinkQ(it, items[it].cls);
          items := items[it := items[it].(time := now)];
          lru.LinkQ(it, items[it].cls);
          assert Abs() == UpdateItem(s, it);
          assert lru.where.Keys == where.Keys + {it};
          hide UpdateItem;
          ShapeSet(before, items, assoc.keyOf, where, lru.where, slabs.inUse, slabs.classes, slabs.powerLargest, it);
        }
      }
    }

    /** do_item_replace. */
    method DoItemReplace(it: Addr, newIt: Addr)
      requires Valid() && it in items && newIt in items && it != newIt
      requires items[it].linked && !items[newIt].linked && items[it].key == items[newIt].key
      modifies this, assoc, lru, slabs`classes, slabs`inUse
      ensures Valid() && Abs() == ReplaceItem(old(Abs()), it, newIt)
    {
      hide TableInv, LruInv, CasInv, RefInv, DeleteInv, TimeInv, StatInv, AssocTable.Valid, LruLists.Valid;
      hide SlabAllocator.Valid;
      hide Parts, KeysAgree, ListsAgree, ChunksAgree;
      UnlinkFacts(Abs(), it);
      DoItemUnlink(it);
      DoItemLink(newIt);
    }

    /** Take a reference for the caller. */
    method Reference(it: Addr)
      requires Valid() && it in items
      modifies this`items, this`held
      ensures Valid() && Abs() == TakeRef(old(Abs()), it)
    {
      hide TableInv, LruInv, CasInv, RefInv, DeleteInv, TimeInv, StatInv, AssocTable.Valid, LruLists.Valid;
      hide SlabAllocator.Valid;
      hide KeysAgree, ListsAgree, ChunksAgree, SameShape, CasHistory, LinkHistory;
      ghost var before := items;
      TakeRefKeeps(Abs(), it);
      items := items[it := items[it].(refcount := items[it].refcount + 1)];
      held := held + multiset{it};
      ShapeOne(before, it, items[it]);
      ShapeFrame(before, items, assoc.keyOf, lru.where, slabs.inUse, slabs.classes, slabs.powerLargest);
    }

    /** do_item_get_notedeleted. */
    method DoItemGetNotedeleted(key: Bytes) returns (it: Addr, deleteLocked: bool)
      requires Valid()
      modifies this, assoc, lru, slabs`classes, slabs`inUse
      ensures Valid() && SamePages(old(slabs.classes), slabs.classes)
      ensures GetItem(old(Abs()), key) == Lookup(Abs(), if it == NULL then None else Some(it), deleteLocked)
    {
      hide TableInv, LruInv, CasInv, RefInv, DeleteInv, TimeInv, StatInv, AssocTable.Valid, LruLists.Valid;
      hide SlabAllocator.Valid;
      hide KeysAgree, ListsAgree, ChunksAgree;
      it := assoc.Find(key);
      deleteLocked := false;
      if it == NULL {
        TableNotNull(Abs(), key);
        return;
      }
      TableFacts(Abs(), key);
      if items[it].deleted && !LockOver(items[it], now) {
        deleteLocked := true;
        it := NULL;
        return;
      }
      if oldestLive != 0 && oldestLive <= now && items[it].time <= oldestLive {
        DoItemUnlink(it);
        it := NULL;
        return;
      }
      if items[it].exptime != 0 && items[it].exptime <= now {
        DoItemUnlink(it);
        it := NULL;
        return;
      }
      Reference(it);
    }

    /** do_item_get_nocheck. */
    method DoItemGetNocheck(key: Bytes) returns (it: Addr)
      requires Valid()
      modifies this`items, this`held
      ensures Valid()
      ensures GetNoCheck(old(Abs()), key) == Lookup(Abs(), if it == NULL then None else Some(it), false)
    {
      hide TableInv, LruInv, CasInv, RefInv, DeleteInv, TimeInv, StatInv, AssocTable.Valid, LruLists.Valid;
      hide SlabAllocator.Valid;
      hide KeysAgree, ListsAgree, ChunksAgree;
      it := assoc.Find(key);
      if it == NULL {
        TableNotNull(Abs(), key);
      } else {
        TableFacts(Abs(), key);
        Reference(it);
      }
    }

    // ----- do_item_alloc

    /** What malloc would return for a new page, should the allocator ask for one. */
    ghost predicate PageOk(malloced: Addr)
      reads this, slabs
    {
      slabs.memBase == NULL ==> malloced != NULL && Unused(slabs.classes, malloced, POWER_BLOCK)
    }

    lemma NewChunk(it: Addr, id: nat, inUse: seq<set<Addr>>)
      requires slabs.Valid() && ChunksAgree(items, inUse, slabs.classes, slabs.powerLargest)
      requires id <= POWER_LARGEST && it !in inUse[id] && slabs.inUse == inUse[id := inUse[id] + {it}]
      ensures it !in items
    {
      if it in items {
        slabs.InUseApart(id, items[it].cls, it, it);
      }
    }

    /** One slabs_alloc of do_item_alloc and, if it succeeds, the new header. */
    method TryPlace(key: Bytes, exptime: nat, total: nat, id: nat, stale: Item, malloced: Addr) returns (it: Addr)
      requires Valid() && PageOk(malloced) && |stale.data| >= 2
      requires slabs.InRange(id) && id <= POWER_LARGEST && |slabs.classes| > id && total <= slabs.classes[id].size
      modifies this`items, this`held, assoc
      modifies slabs`classes, slabs`inUse, slabs`memMalloced, slabs`memCurrent, slabs`memAvail
      ensures Valid()
      ensures it == NULL ==> Abs() == old(Abs()) && slabs.classes == old(slabs.classes)
      ensures it != NULL ==>
        it !in old(items) && Abs() == Place(old(Abs()), it, key, exptime, Allocation(total, id, None, None, stale))
      ensures |old(slabs.classes)| > id && HasFree(old(slabs.classes)[id]) ==> it != NULL
    {
      hide TableInv, LruInv, CasInv, RefInv, DeleteInv, TimeInv, StatInv, AssocTable.Valid, LruLists.Valid;
      hide SlabAllocator.Valid;
      hide KeysAgree, ListsAgree, ChunksAgree;
      ghost var s, classes, inUse := Abs(), slabs.classes, slabs.inUse;
      AllocatorShape();
      it := slabs.Alloc(id, malloced);
      if it != NULL {
        assert ChunksAgree(items, inUse, slabs.classes, slabs.powerLargest) by {
          SizesFrame(items, inUse, classes, slabs.classes, slabs.powerLargest);
        }
        NewChunk(it, id, inUse);
        PlaceSound(s, it, key, exptime, Allocation(total, id, None, None, stale));
        TableValues(s, it);
        ShapePlace(items, assoc.keyOf, lru.where, inUse, slabs.classes, slabs.powerLargest, it,
          stale.(key := key, total := total, cls := id, exptime := exptime, linked := false, deleted := false,
            refcount := 1));
        assoc.SetKey(it, key);
        items := items[it := stale.(key := key, total := total, cls := id, exptime := exptime,
          linked := false, deleted := false, refcount := 1)];
        held := held + multiset{it};
      }
    }

    /** The eviction loop of do_item_alloc. */
    method EvictOne(id: nat)
      requires Valid() && id < LARGEST_ID
      modifies this, assoc, lru, slabs`classes, slabs`inUse
      ensures Valid() && Abs() == Evict(old(Abs()), id)
      ensures Victim(old(items), old(Abs()).lru[id], EVICTION_TRIES).Some? ==>
        slabs.InRange(id) && HasFree(slabs.classes[id])
      ensures SamePages(old(slabs.classes), slabs.classes)
    {
      hide TableInv, LruInv, CasInv, RefInv, DeleteInv, TimeInv, StatInv, AssocTable.Valid, LruLists.Valid;
      hide SlabAllocator.Valid;
      hide KeysAgree, ListsAgree, ChunksAgree;
      lru.Bounds();
      ghost var q := lru.lists[id];
      var tries: nat := EVICTION_TRIES;
      var search := lru.tails[id];
      ghost var n := |q|;
      lru.Walk(id, n);
      assert q[..n] == q;
      while tries > 0 && search != NULL
        invariant unchanged(this, assoc, lru, slabs)
        invariant 0 <= n <= |q| && search == Predecessor(q, n)
        invariant Victim(items, q, EVICTION_TRIES) == Victim(items, q[..n], tries)
        decreases tries
      {
        OnList(Abs(), id, n - 1);
        lru.Walk(id, n);
        if items[search].refcount == 0 {
          DoItemUnlink(search);
          return;
        }
        assert q[..n][..n - 1] == q[..n - 1];
        tries, search, n := tries - 1, lru.prev[search], n - 1;
      }
      if n > 0 { OnList(Abs(), id, n - 1); }
    }

    /** do_item_alloc up to the tail repair of items.c:148-156: if both slabs_alloc fail and Repair finds an item, the
        code goes on to free it.
        `stale` is what the chunk last held, cut to the bytes this item needs. */
    method DoItemAlloc(key: Bytes, nsuffix: nat, exptime: nat, stale: Item, malloced: Addr)
      returns (it: Addr, ghost o: Allocation)
      requires Valid() && PageOk(malloced) && |stale.data| >= 2
      modifies this, assoc, lru, slabs
      ensures Valid()
      ensures AllocationOk(old(Abs()), o, |stale.data|) && o.stale == stale
      ensures o.total == ITEM_HEADER + |key| + 1 + nsuffix + |stale.data| && (o.cls == 0 <==> o.total > POWER_BLOCK)
      ensures AllocItem(old(Abs()), key, exptime, o) == Lookup(Abs(), if it == NULL then None else Some(it), false)
      ensures it == NULL && o.cls != 0 && evictToFree ==>
        Victim(old(items), Queue(old(Abs()), o.cls), EVICTION_TRIES).None?
    {
      hide TableInv, LruInv, CasInv, RefInv, DeleteInv, TimeInv, StatInv, AssocTable.Valid, LruLists.Valid;
      hide SlabAllocator.Valid;
      hide KeysAgree, ListsAgree, ChunksAgree;
      hide Unused, Victim, Place, Inv;
      var total := ITEM_HEADER + |key| + 1 + nsuffix + |stale.data|;
      AllocatorShape();
      lru.Bounds();
      var id := slabs.ClsId(total);
      o := Allocation(total, id, None, None, stale);
      if id == 0 {
        return NULL, o;
      }
      it := TryPlace(key, exptime, total, id, stale, malloced);
      if it != NULL {
        o := o.(first := Some(it));
        PlaceOracle(old(Abs()), it, key, exptime, o);
        return;
      }
      lru.TailEmpty(id);
      EmptyVictim(items, EVICTION_TRIES);
      if !evictToFree || lru.tails[id] == NULL {
        return;
      }
      ghost var s := Abs();
      EvictOne(id);
      ghost var s1 := Abs();
      it := TryPlace(key, exptime, total, id, stale, malloced);
      if it != NULL {
        o := o.(second := Some(it));
        PlaceOracle(s1, it, key, exptime, o);
      }
    }

    // ----- do_item_flush_expired

    /** The inner loop of do_item_flush_expired: unlink from the head while items are not older than the flush time. */
    method FlushList(c: nat)
      requires Valid() && c < LARGEST_ID
      modifies this, assoc, lru, slabs`classes, slabs`inUse
      ensures Valid() && Abs() == UnlinkAll(old(Abs()), FlushPrefix(old(items), Queue(old(Abs()), c), old(oldestLive)))
    {
      hide TableInv, LruInv, CasInv, RefInv, DeleteInv, TimeInv, StatInv, AssocTable.Valid, LruLists.Valid;
      hide SlabAllocator.Valid;
      hide KeysAgree, ListsAgree, ChunksAgree;
      hide Inv;
      lru.Bounds();
      lru.Front(c);
      var iter := lru.heads[c];
      ghost var goal := UnlinkAll(Abs(), FlushPrefix(items, lru.lists[c], oldestLive));
      while iter != NULL
        invariant Valid() && |lru.lists| == |lru.heads| == LARGEST_ID && iter == lru.heads[c]
        invariant UnlinkAll(Abs(), FlushPrefix(items, lru.lists[c], oldestLive)) == goal
        decreases |lru.lists[c]|
      {
        ghost var s := Abs();
        lru.Front(c);
        OnListHead(s, c);
        if items[iter].time >= oldestLive {
          var next := lru.next[iter];
          FlushHead(s, c);
          DoItemUnlink(iter);
          iter := next;
          lru.Bounds();
          lru.Front(c);
        } else {
          break;
        }
      }
      lru.Front(c);
      FlushStops(Abs(), c);
    }

    /** do_item_flush_expired. */
    method DoItemFlushExpired()
      requires Valid()
      modifies this, assoc, lru, slabs`classes, slabs`inUse
      ensures Valid() && Abs() == FlushExpired(old(Abs()))
    {
      hide Valid, UnlinkAll, FlushPrefix, Queue;
      if oldestLive == 0 {
        return;
      }
      var i := 0;
      while i < LARGEST_ID
        invariant i <= LARGEST_ID && Valid()
        invariant FlushFrom(Abs(), i) == FlushFrom(old(Abs()), 0)
      {
        FlushList(i);
        i := i + 1;
      }
    }

    // ----- memcached.c

    /** Writing the data of an item that is not linked yet. */
    method WriteData(it: Addr, data: Bytes)
      requires Valid() && it in items && !items[it].linked && |data| >= 2
      modifies this`items
      ensures Valid() && Abs() == SetData(old(Abs()), it, data)
    {
      hide TableInv, LruInv, CasInv, RefInv, DeleteInv, TimeInv, StatInv, AssocTable.Valid, LruLists.Valid;
      hide SlabAllocator.Valid;
      hide KeysAgree, ListsAgree, ChunksAgree, SameShape, CasHistory, LinkHistory;
      ghost var before := items;
      SetDataSound(Abs(), it, data);
      items := items[it := items[it].(data := data)];
      ShapeOne(before, it, items[it]);
      ShapeFrame(before, items, assoc.keyOf, lru.where, slabs.inUse, slabs.classes, slabs.powerLargest);
    }

    /** The header part of do_defer_delete. */
    method LockItem(it: Addr, deadline: nat)
      requires Parts() && it in items
      modifies this`items
      ensures Parts() && items == old(items)[it := old(items)[it].(exptime := deadline, deleted := true)]
    {
      hide AssocTable.Valid, LruLists.Valid, SlabAllocator.Valid, KeysAgree, ListsAgree, ChunksAgree, SameShape;
      ghost var before := items;
      items := items[it := items[it].(exptime := deadline, deleted := true)];
      ShapeOne(before, it, items[it]);
      ShapeFrame(before, items, assoc.keyOf, lru.where, slabs.inUse, slabs.classes, slabs.powerLargest);
    }

    /** Every return to conn_read moves one more bucket of a hash table that is being expanded. */
    method MoveNextBucket()
      requires Valid()
      modifies assoc
      ensures Valid() && Abs() == old(Abs())
      ensures old(assoc.expanding) ==> assoc.expandBucket == old(assoc.expandBucket) + 1
    {
      hide Inv, AssocTable.Valid, LruLists.Valid, SlabAllocator.Valid, KeysAgree, ListsAgree, ChunksAgree;
      assoc.MoveNextBucket();
    }

    /** The clock has moved on. */
    method SetCurrentTime(time: nat)
      requires Valid() && now <= time
      modifies this`now
      ensures Valid() && Abs() == old(Abs()).(now := time)
    {
      hide TableInv, LruInv, CasInv, RefInv, DeleteInv, TimeInv, StatInv, AssocTable.Valid, LruLists.Valid;
      hide SlabAllocator.Valid;
      hide KeysAgree, ListsAgree, ChunksAgree;
      RetimedInv(Abs(), time, oldestLive);
      now := time;
    }

    method SetOldestLive(time: nat)
      requires Valid()
      modifies this`oldestLive
      ensures Valid() && Abs() == old(Abs()).(oldestLive := time)
    {
      hide TableInv, LruInv, CasInv, RefInv, DeleteInv, TimeInv, StatInv, AssocTable.Valid, LruLists.Valid;
      hide SlabAllocator.Valid;
      hide KeysAgree, ListsAgree, ChunksAgree;
      RetimedInv(Abs(), now, time);
      oldestLive := time;
    }

    /** The CAS id a cas command brings along. */
    method SetCasId(it: Addr, cas: nat)
      requires Valid() && it in items && !items[it].linked
      modifies this`items
      ensures Valid() && Abs() == SetCas(old(Abs()), it, cas)
    {
      hide Inv, CasHistory, LinkHistory, AssocTable.Valid, LruLists.Valid, SlabAllocator.Valid;
      hide KeysAgree, ListsAgree, ChunksAgree, SameShape;
      ghost var before := items;
      SetCasSound(Abs(), it, cas);
      items := items[it := items[it].(cas := cas)];
      ShapeOne(before, it, items[it]);
      ShapeFrame(before, items, assoc.keyOf, lru.where, slabs.inUse, slabs.classes, slabs.powerLargest);
    }

    /** do_defer_delete: the queue takes over the reference, unless it is full and cannot grow; then the reference is
        dropped and nothing is deleted. */
    method DoDeferDelete(it: Addr, deadline: nat, grows: bool) returns (queued: bool)
      requires Valid() && it in held && it in items
      modifies this, slabs`classes, slabs`inUse
      ensures Valid() && (queued <==> grows || old(|todelete| < deltotal))
      ensures Abs() == if queued then DeferDelete(old(Abs()), it, deadline) else RemoveItem(old(Abs()), it)
    {
      hide Inv, CasHistory, LinkHistory, Parts;
      if |todelete| >= deltotal {
        if !grows {
          DoItemRemove(it);
          return false;
        }
        deltotal := 2 * deltotal;
      }
      Defer(it, deadline);
      queued := true;
    }

    method Defer(it: Addr, deadline: nat)
      requires Valid() && it in held && it in items && |todelete| < deltotal
      modifies this`items, this`todelete, this`held, this`badLock
      ensures Valid() && Abs() == DeferDelete(old(Abs()), it, deadline)
    {
      hide Inv, CasHistory, LinkHistory, Parts;
      ghost var s := Abs();
      DeferSound(s, it, deadline);
      badLock := badLock || deadline == 0 || items[it].deleted;
      LockItem(it, deadline);
      todelete := todelete + [it];
      held := held - multiset{it};
      assert Abs() == DeferDelete(s, it, deadline);
    }

    /** The start of reaping a queue entry: clear its lock and take its reference back from the queue. */
    method UnlockEntry(i: nat)
      requires Valid() && i < |todelete| && todelete[i] in items
      modifies this`items, this`todelete, this`held
      ensures Valid() && Abs() == Dequeue(old(Abs()), i)
    {
      hide TableInv, LruInv, CasInv, RefInv, DeleteInv, TimeInv, StatInv, AssocTable.Valid, LruLists.Valid;
      hide SlabAllocator.Valid;
      hide KeysAgree, ListsAgree, ChunksAgree, SameShape, CasHistory, LinkHistory;
      ghost var before := items;
      DequeueSound(Abs(), i);
      var it := todelete[i];
      items := items[it := items[it].(deleted := false)];
      todelete := todelete[..i] + todelete[i + 1..];
      held := held + multiset{it};
      ShapeOne(before, it, items[it]);
      ShapeFrame(before, items, assoc.keyOf, lru.where, slabs.inUse, slabs.classes, slabs.powerLargest);
    }

    /** One due entry: the lock is cleared, and the item leaves the table and loses the reference of the queue. */
    method Reap(i: nat)
      requires Valid() && i < |todelete| && todelete[i] in items
      modifies this, assoc, lru, slabs`classes, slabs`inUse
      ensures Valid() && Abs() == ReapEntry(old(Abs()), i)
      ensures todelete == old(todelete)[..i] + old(todelete)[i + 1..]
    {
      hide Parts, Inv, UnlinkItem, RemoveItem, Dequeue;
      ReapSteps(Abs(), i);
      var it := todelete[i];
      UnlockEntry(i);
      DoItemUnlink(it);
      DoItemRemove(it);
    }

    /** do_run_deferred_deletes: due entries are reaped, the others are compacted to the front of the array. */
    method DoRunDeferredDeletes()
      requires Valid()
      modifies this, assoc, lru, slabs`classes, slabs`inUse
      ensures Valid() && Abs() == RunDeferred(old(Abs()), 0)
    {
      hide Parts, Inv, ReapEntry, RunDeferred;
      var queue := todelete;
      var i, j := 0, 0;
      while i < |queue|
        invariant 0 <= j <= i <= |queue| && Valid()
        invariant todelete == queue[..j] + queue[i..]
        invariant RunDeferred(Abs(), j) == RunDeferred(old(Abs()), 0)
      {
        var it := queue[i];
        assert todelete[j] == it;
        ghost var s := Abs();
        EntryFactsOf(s, j);
        RunDeferredStep(s, j);
        if LockOver(items[it], now) {
          Reap(j);
        } else {
          queue := queue[j := it];
          todelete := queue[..j + 1] + queue[i + 1..];
          assert todelete == s.todelete;
          j := j + 1;
        }
        i := i + 1;
      }
      RunDeferredEnd(Abs(), j);
    }

    /** Replace `prior` by `it`, or just link `it` if there is none, and release `prior`. */
    method LinkInPlace(it: Addr, prior: Addr)
      requires Valid() && it in items && !items[it].linked
      requires prior == NULL ==> items[it].key !in assoc.contents
      requires prior != NULL ==>
        it != prior && prior in held && prior in items && items[prior].linked && items[prior].key == items[it].key
      modifies this, assoc, lru, slabs`classes, slabs`inUse
      ensures Valid() && Abs() == LinkOver(old(Abs()), it, if prior == NULL then None else Some(prior))
    {
      hide TableInv, LruInv, CasInv, RefInv, DeleteInv, TimeInv, StatInv, AssocTable.Valid, LruLists.Valid;
      hide SlabAllocator.Valid;
      hide Parts, KeysAgree, ListsAgree, ChunksAgree;
      hide Inv, LinkItem, UnlinkItem, RemoveItem;
      if prior != NULL {
        ReplaceHeld(Abs(), prior, it);
        DoItemReplace(prior, it);
        DoItemRemove(prior);
      } else {
        DoItemLink(it);
      }
    }

    /** The append and prepend branch of do_store_item. */
    method StoreJoin(it: Addr, oldIt: Addr, comm: StoreCommand, nsuffix: nat, stale: Item, malloced: Addr)
      returns (stored: StoreResult, ghost o: Allocation)
      requires Valid() && PageOk(malloced) && it in held && oldIt in held && it != oldIt && it in items
      requires oldIt in items
      requires !items[it].linked && items[oldIt].linked && items[oldIt].key == items[it].key
      requires |stale.data| == |items[it].data| + |items[oldIt].data| - 2
      modifies this, assoc, lru, slabs
      ensures Valid() && StoreJoined(old(Abs()), it, oldIt, comm, o) == StoreOutcome(Abs(), stored)
      ensures AllocationOk(old(Abs()), o, |old(items[it].data)| + |old(items[oldIt].data)| - 2)
    {
      hide TableInv, LruInv, CasInv, RefInv, DeleteInv, TimeInv, StatInv, AssocTable.Valid, LruLists.Valid;
      hide SlabAllocator.Valid;
      hide Parts, KeysAgree, ListsAgree, ChunksAgree;
      hide LinkItem, UnlinkItem, RemoveItem, AllocItem, AllocationOk;
      ghost var s := Abs();
      HeldFacts(s, it);
      HeldFacts(s, oldIt);
      ItemFacts(s, oldIt);
      RefData(s);
      var newIt;
      newIt, o := DoItemAlloc(items[it].key, nsuffix, items[oldIt].exptime, stale, malloced);
      AllocSound(s, s.items[it].key, s.items[oldIt].exptime, o, |stale.data|);
      if newIt == NULL {
        DoItemRemove(oldIt);
        return NotStored, o;
      }
      var added, prior := items[it].data, items[oldIt].data;
      var data := if comm == Append then Joined(prior, added) else Joined(added, prior);
      WriteData(newIt, data);
      ghost var s2 := Abs();
      LinkOverSound(s2, newIt, oldIt);
      LinkInPlace(newIt, oldIt);
      assert newIt in held;
      DoItemRemove(newIt);
      return Stored, o;
    }

    /** The cas branch of do_store_item. */
    method StoreCas(it: Addr, prior: Addr) returns (stored: StoreResult)
      requires Valid() && it in items && !items[it].linked
      requires prior != NULL ==>
        it != prior && prior in held && prior in items && items[prior].linked && items[prior].key == items[it].key
      modifies this, assoc, lru, slabs`classes, slabs`inUse
      ensures Valid()
      ensures prior == NULL ==> stored == NotFound && Abs() == old(Abs())
      ensures prior != NULL && old(items[it].cas == items[prior].cas) ==>
        stored == Stored && Abs() == LinkOver(old(Abs()), it, Some(prior))
      ensures prior != NULL && old(items[it].cas != items[prior].cas) ==>
        stored == Exists && Abs() == RemoveItem(old(Abs()), prior)
    {
      hide Parts, Inv, LinkOver, RemoveItem;
      if prior == NULL {
        stored := NotFound;
      } else if items[it].cas == items[prior].cas {
        LinkInPlace(it, prior);
        stored := Stored;
      } else {
        DoItemRemove(prior);
        stored := Exists;
      }
    }

    /** do_store_item.  `stale` gives the former contents of the chunk an append or prepend may allocate. */
    method DoStoreItem(it: Addr, comm: StoreCommand, nsuffix: nat, stale: nat -> Item, malloced: Addr)
      returns (stored: StoreResult, ghost o: Allocation)
      requires Valid() && PageOk(malloced) && it in held && it in items && !items[it].linked
      requires forall n :: |stale(n).data| == n
      modifies this, assoc, lru, slabs
      ensures Valid() && StoreAllocationOk(old(Abs()), it, comm, o)
      ensures StoreItem(old(Abs()), it, comm, o) == StoreOutcome(Abs(), stored)
    {
      hide Parts, Inv, LinkItem, UnlinkItem, RemoveItem, TakeRef, UpdateItem, GetItem, GetNoCheck, StoreJoined;
      hide LinkOver, AllocationOk;
      ghost var s := Abs();
      var key := items[it].key;
      StoreLookup(s, it, key);
      var oldIt, deleteLocked := DoItemGetNotedeleted(key);
      o := Allocation(0, 0, None, None, items[it]);
      stored := NotStored;
      assert PageOk(malloced);
      hide SamePages, PageOk;
      if oldIt != NULL && comm == Add {
        DoItemUpdate(oldIt);
        DoItemRemove(oldIt);
      } else if oldIt == NULL && comm in {Replace, Append, Prepend} {
      } else if deleteLocked && comm in {Replace, Add, Append, Prepend} {
      } else if comm == Cas {
        if deleteLocked {
          oldIt := DoItemGetNocheck(key);
        }
        stored := StoreCas(it, oldIt);
      } else if comm in {Append, Prepend} {
        var n := |items[it].data| + |items[oldIt].data| - 2;
        stored, o := StoreJoin(it, oldIt, comm, nsuffix, stale(n), malloced);
      } else {
        if deleteLocked {
          oldIt := DoItemGetNocheck(key);
        }
        LinkInPlace(it, oldIt);
        stored := Stored;
      }
    }

    /** The branch of do_add_delta for a number that no longer fits: store it in a new item. */
    method DeltaInNewItem(it: Addr, text: Bytes, nsuffix: nat, stale: Item, malloced: Addr)
      returns (ghost o: Allocation)
      requires Valid() && PageOk(malloced) && it in held && it in items && items[it].linked
      requires |stale.data| == |text| + 2 > |items[it].data|
      modifies this, assoc, lru, slabs
      ensures Valid() && Abs() == AddDelta(old(Abs()), it, text, o)
      ensures AllocationOk(old(Abs()), o, |text| + 2)
    {
      hide TableInv, LruInv, CasInv, RefInv, DeleteInv, TimeInv, StatInv, AssocTable.Valid, LruLists.Valid;
      hide SlabAllocator.Valid;
      hide Parts, KeysAgree, ListsAgree, ChunksAgree;
      hide LinkItem, UnlinkItem, RemoveItem, AllocItem, AllocationOk;
      ghost var s := Abs();
      HeldFacts(s, it);
      var newIt;
      newIt, o := DoItemAlloc(items[it].key, nsuffix, items[it].exptime, stale, malloced);
      AllocSound(s, s.items[it].key, s.items[it].exptime, o, |stale.data|);
      if newIt == NULL {
        return;
      }
      WriteData(newIt, text + CRLF);
      ghost var s2 := Abs();
      ReplaceKeeps(s2, it, newIt);
      DoItemReplace(it, newIt);
      assert newIt in held;
      DoItemRemove(newIt);
    }

    /** The branch of do_add_delta that overwrites the number in place and issues a new CAS id. */
    method DeltaInPlace(it: Addr, text: Bytes)
      requires Valid() && it in held && it in items && items[it].linked && |text| + 2 <= |items[it].data|
      modifies this`items, this`casId
      ensures Valid() && forall o :: Abs() == AddDelta(old(Abs()), it, text, o)
    {
      hide TableInv, LruInv, CasInv, RefInv, DeleteInv, TimeInv, StatInv, AssocTable.Valid, LruLists.Valid;
      hide SlabAllocator.Valid;
      hide KeysAgree, ListsAgree, ChunksAgree, SameShape, CasHistory, LinkHistory;
      ghost var s, before := Abs(), items;
      ghost var o: Allocation := Allocation(0, 0, None, None, items[it]);
      DeltaSound(s, it, text, o);
      var data := text + seq(|items[it].data| - |text| - 2, _ => SPACE) + items[it].data[|items[it].data| - 2..];
      casId := casId + 1;
      items := items[it := items[it].(data := data, cas := casId)];
      assert forall o :: Abs() == AddDelta(s, it, text, o);
      ShapeOne(before, it, items[it]);
      hide AddDelta;
      ShapeFrame(before, items, assoc.keyOf, lru.where, slabs.inUse, slabs.classes, slabs.powerLargest);
    }

    /** do_add_delta on an item the caller has looked up; `text` is the printed new value. */
    method DoAddDelta(it: Addr, text: Bytes, nsuffix: nat, stale: Item, malloced: Addr) returns (ghost o: Allocation)
      requires Valid() && PageOk(malloced) && it in held && it in items && items[it].linked
      requires |stale.data| == |text| + 2
      modifies this, assoc, lru, slabs
      ensures Valid() && Abs() == AddDelta(old(Abs()), it, text, o)
      ensures |text| + 2 > |old(items[it].data)| ==> AllocationOk(old(Abs()), o, |text| + 2)
    {
      hide Valid, AddDelta, AllocationOk;
      if |text| + 2 > |items[it].data| {
        o := DeltaInNewItem(it, text, nsuffix, stale, malloced);
      } else {
        o := Allocation(0, 0, None, None, items[it]);
        DeltaInPlace(it, text);
      }
    }
  }

  lemma ReplaceHeld(s: State, a: Addr, b: Addr)
    requires a in s.held
    ensures a in ReplaceItem(s, a, b).held
  {}

  /** What do_store_item knows about the item it looked up. */
  lemma StoreLookup(s: State, a: Addr, key: Bytes)
    requires Inv(s) && a in s.held && a in s.items && !s.items[a].linked && s.items[a].key == key
    ensures var g := GetItem(s, key); var s1 := g.state;
      && a in s1.held && a in s1.items && s1.items[a] == s.items[a]
      && (g.found.Some? ==> var b := g.found.value;
        && b != a && b in s1.held && b in s1.items && s1.items[b].linked && s1.items[b].key == key
        && |s1.items[b].data| >= 2
        && b in s.items && s.items[b].data == s1.items[b].data && !g.locked && b in UpdateItem(s1, b).held)
      && (g.found.None? && !g.locked ==> key !in s1.table)
      && (g.locked ==> g.found.None? && var h := GetNoCheck(s1, key);
        h.found.Some? && var b := h.found.value;
        && b != a && b in h.state.held && b in h.state.items && h.state.items[b].linked && h.state.items[b].key == key
        && a in h.state.items && h.state.items[a] == s.items[a])
  {
    hide TableInv, LruInv, CasInv, RefInv, DeleteInv, TimeInv, StatInv;
    GetKeeps(s, key);
    HeldFacts(s, a);
    RefData(s);
    if key in s.table {
      TableFacts(s, key);
      UnlinkFacts(s, s.table[key]);
    }
  }

  lemma ItemCount(t: Table)
    requires TableOk(t)
    ensures t.hashItems == |t.contents|
  {}

  lemma OnListHead(s: State, c: nat)
    requires Inv(s) && c < LARGEST_ID && |s.lru| == LARGEST_ID && s.lru[c] != []
    ensures s.lru[c][0] in s.items
  {
    OnList(s, c, 0);
  }

  /** One more item off the front of a list being flushed. */
  lemma FlushHead(s: State, c: nat)
    requires Inv(s) && c < LARGEST_ID && |s.lru| == LARGEST_ID && s.lru[c] != []
    requires s.lru[c][0] in s.items && s.items[s.lru[c][0]].time >= s.oldestLive
    ensures var s1 := UnlinkItem(s, s.lru[c][0]);
      && |s1.lru| == LARGEST_ID && s1.lru[c] == s.lru[c][1..] && s1.oldestLive == s.oldestLive
      && UnlinkAll(s1, FlushPrefix(s1.items, s1.lru[c], s1.oldestLive)) ==
        UnlinkAll(s, FlushPrefix(s.items, s.lru[c], s.oldestLive))
  {
    hide TableInv, LruInv, CasInv, RefInv, DeleteInv, TimeInv, StatInv, UnlinkItem;
    var s1 := UnlinkItem(s, s.lru[c][0]);
    UnlinkHead(s, c);
    FlushPrefixFrame(s.items, s1.items, s.lru[c][1..], s.oldestLive);
    assert FlushPrefix(s.items, s.lru[c], s.oldestLive)[1..] == FlushPrefix(s1.items, s1.lru[c], s1.oldestLive);
  }

  lemma FlushStops(s: State, c: nat)
    requires c < |s.lru|
    requires s.lru[c] == [] || s.lru[c][0] !in s.items || s.items[s.lru[c][0]].time < s.oldestLive
    ensures UnlinkAll(s, FlushPrefix(s.items, s.lru[c], s.oldestLive)) == s
  {}

  lemma RunDeferredStep(s: State, i: nat)
    requires i < |s.todelete| && s.todelete[i] in s.items
    ensures RunDeferred(s, i) ==
      if LockOver(s.items[s.todelete[i]], s.now) then RunDeferred(ReapEntry(s, i), i) else RunDeferred(s, i + 1)
  {}

  lemma RunDeferredEnd(s: State, i: nat)
    requires i >= |s.todelete|
    ensures RunDeferred(s, i) == s
  {}

  lemma EntryFactsOf(s: State, i: nat)
    requires Inv(s) && i < |s.todelete|
    ensures s.todelete[i] in s.items
  {
    EntryFacts(s, i);
  }

  /** The calls that reap an entry are allowed: the queue's reference keeps the item alive until the last one. */
  lemma ReapSteps(s: State, i: nat)
    requires Inv(s) && i < |s.todelete| && s.todelete[i] in s.items
    ensures var a := s.todelete[i]; var s1 := Dequeue(s, i); var s2 := UnlinkItem(s1, a);
      && a in s1.items && a in s2.held && s1.todelete == s.todelete[..i] + s.todelete[i + 1..]
      && s2.todelete == s1.todelete && RemoveItem(s2, a).todelete == s1.todelete
  {
    hide TableInv, LruInv, CasInv, RefInv, DeleteInv, TimeInv, StatInv, CasHistory, LinkHistory;
    var a := s.todelete[i];
    UnlinkFrame(Dequeue(s, i), a);
    UnlinkHeld(Dequeue(s, i), a);
    RemoveFrame(UnlinkItem(Dequeue(s, i), a), a);
  }

  lemma UnlinkHeld(s: State, a: Addr)
    ensures UnlinkItem(s, a).held == s.held
  {}

  lemma PlaceOracle(s: State, a: Addr, key: Bytes, exptime: nat, o: Allocation)
    ensures Place(s, a, key, exptime, o) == Place(s, a, key, exptime, o.(first := None, second := None))
  {}

  lemma EmptyVictim(items: map<Addr, Item>, tries: nat)
    ensures Victim(items, [], tries) == None
  {}

  lemma OnList(s: State, c: nat, i: nat)
    requires LruInv(s) && RefInv(s) && c < LARGEST_ID && |s.lru| == LARGEST_ID && i < |s.lru[c]|
    ensures s.lru[c][i] in s.items && s.items[s.lru[c][i]].linked && s.items[s.lru[c][i]].cls == c
    ensures s.lru[c][i] != NULL
  {}

  lemma TableValues(s: State, a: Addr)
    requires TableInv(s) && a !in s.items
    ensures forall k :: k in s.table ==> s.table[k] != a
  {}

  lemma SizesFrame(items: map<Addr, Item>, inUse: seq<set<Addr>>, classes: seq<SlabClass>, classes': seq<SlabClass>,
      largest: nat)
    requires ChunksAgree(items, inUse, classes, largest) && SameSizes(classes, classes')
    ensures ChunksAgree(items, inUse, classes', largest)
  {}

  /** Filling a fresh chunk with an unlinked item. */
  lemma ShapePlace(items: map<Addr, Item>, keyOf: map<Addr, Bytes>, where: map<Addr, nat>,
                   inUse: seq<set<Addr>>, classes: seq<SlabClass>, largest: nat, it: Addr, x: Item)
    requires KeysAgree(items, keyOf) && ListsAgree(items, where) && ChunksAgree(items, inUse, classes, largest)
    requires it !in items && !x.linked && POWER_SMALLEST <= x.cls <= largest && x.total <= classes[x.cls].size
    ensures KeysAgree(items[it := x], keyOf[it := x.key]) && ListsAgree(items[it := x], where)
    ensures ChunksAgree(items[it := x], inUse[x.cls := inUse[x.cls] + {it}], classes, largest)
  {
    hide ChunksAgree;
    ChunkPlaced(items, inUse, classes, largest, it, x);
  }

  lemma ChunkPlaced(items: map<Addr, Item>, inUse: seq<set<Addr>>, classes: seq<SlabClass>, largest: nat, it: Addr,
                    x: Item)
    requires ChunksAgree(items, inUse, classes, largest)
    requires it !in items && POWER_SMALLEST <= x.cls <= largest && x.total <= classes[x.cls].size
    ensures ChunksAgree(items[it := x], inUse[x.cls := inUse[x.cls] + {it}], classes, largest)
  {}

  lemma TableNotNull(s: State, key: Bytes)
    requires TableInv(s) && RefInv(s)
    ensures key in s.table ==> s.table[key] != NULL
  {}

  lemma LinkedKey(s: State, a: Addr)
    requires TableInv(s) && a in s.items && s.items[a].linked
    ensures s.items[a].key in s.table
  {}
}
