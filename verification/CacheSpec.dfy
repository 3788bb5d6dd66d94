/** The memcached cache engine as a value: one state, and one function for each
    operation of items.c and for each storage operation of memcached.c.
    The pointer-level engine in Cache.dfy is proved to compute exactly these functions. */
module CacheSpec {
  import opened Basics

  type Addr = nat
  type Bytes = seq<bv8>

  /** Address 0 is the C null pointer. */
  const NULL: Addr := 0
  const LARGEST_ID: nat := 255
  const UPDATE_INTERVAL: nat := 60
  const EVICTION_TRIES: nat := 50
  const TAIL_REPAIR_AGE: nat := 10800
  const UINT32: nat := 0x1_0000_0000
  const CRLF: Bytes := [13, 10]
  const SPACE: bv8 := 32
  /** sizeof(item) on a 64-bit machine. */
  const ITEM_HEADER: nat := 56
  const KEY_MAX_LENGTH: nat := 250
  const REALTIME_MAXDELTA: nat := 60 * 60 * 24 * 30

  /** An item header together with its key and data.  `stamp` is a history variable: the value
      of stats.total_items when the item was last linked. */
  datatype Item = Item(
    key: Bytes, data: Bytes, total: nat, cls: nat,
    linked: bool, deleted: bool, refcount: nat,
    time: nat, exptime: nat, cas: nat, stamp: nat)

  /** `items` holds the chunks handed out by the slab allocator, `table` is the hash table, `lru`
      the list of each slab class from head to tail.  Two history variables: `held`, the references that
      connections and running commands have taken and not yet released, and `badLock`, whether
      any delete lock was set to end at time 0 or put on an item that had one. */
  datatype State = State(
    items: map<Addr, Item>, table: map<Bytes, Addr>, lru: seq<seq<Addr>>,
    casCounter: nat, todelete: seq<Addr>, held: multiset<Addr>, badLock: bool,
    now: nat, started: nat, oldestLive: nat, evictToFree: bool,
    currItems: int, currBytes: int, totalItems: nat)

  datatype StoreCommand = Add | Set | Replace | Append | Prepend | Cas
  datatype StoreResult = NotStored | Stored | Exists | NotFound

  /** What the environment decides during one do_item_alloc: the size and slab class of the request,
      the answers of the two slabs_alloc calls and the stale contents of the chunk. */
  datatype Allocation = Allocation(total: nat, cls: nat, first: Option<Addr>, second: Option<Addr>, stale: Item)

  // ----- Lists

  ghost predicate Distinct(q: seq<Addr>) {
    forall i, j :: 0 <= i < j < |q| ==> q[i] != q[j]
  }

  /** `q` without the first occurrence of `a`. */
  function Without(q: seq<Addr>, a: Addr): seq<Addr> {
    if q == [] then [] else if q[0] == a then q[1..] else [q[0]] + Without(q[1..], a)
  }

  /** The item do_item_alloc evicts: the unreferenced one nearest the tail, within `tries` steps. */
  function Victim(items: map<Addr, Item>, q: seq<Addr>, tries: nat): Option<Addr>
    decreases tries
  {
    if tries == 0 || q == [] then None
    else if q[|q| - 1] in items && items[q[|q| - 1]].refcount == 0 then Some(q[|q| - 1])
    else Victim(items, q[..|q| - 1], tries - 1)
  }

  /** Referenced, and not refreshed for three hours. */
  predicate Overdue(items: map<Addr, Item>, a: Addr, now: nat) {
    a in items && items[a].refcount != 0 && items[a].time + TAIL_REPAIR_AGE < now
  }

  /** The item the tail repair of do_item_alloc frees although there are references to it: the overdue one nearest
      the tail, within `tries` steps. */
  function Leaked(items: map<Addr, Item>, q: seq<Addr>, now: nat, tries: nat): Option<Addr>
    decreases tries
  {
    if tries == 0 || q == [] then None
    else
      var a := q[|q| - 1];
      if Overdue(items, a, now) then Some(a)
      else Leaked(items, q[..|q| - 1], now, tries - 1)
  }

  /** The leading items of an LRU list that do_item_flush_expired unlinks. */
  function FlushPrefix(items: map<Addr, Item>, q: seq<Addr>, oldestLive: nat): seq<Addr> {
    if q != [] && q[0] in items && items[q[0]].time >= oldestLive
    then [q[0]] + FlushPrefix(items, q[1..], oldestLive)
    else []
  }

  // ----- Time

  /** realtime(): a relative or absolute expiry as server-relative seconds, cast to 32 bits. */
  function Realtime(exptime: int, now: nat, started: nat): nat {
    if exptime == 0 then 0
    else if exptime > REALTIME_MAXDELTA then
      if exptime <= started then 1 else (exptime - started) % UINT32
    else (exptime + now) % UINT32
  }

  /** The LRU refresh test; `current_time - 60` is unsigned and wraps in the first minute. */
  predicate Stale(time: nat, now: nat) {
    time < (now - UPDATE_INTERVAL) % UINT32
  }

  predicate LockOver(it: Item, now: nat) {
    now >= it.exptime
  }

  predicate Flushed(s: State, it: Item) {
    s.oldestLive != 0 && s.oldestLive <= s.now && it.time <= s.oldestLive
  }

  predicate Expired(s: State, it: Item) {
    it.exptime != 0 && it.exptime <= s.now
  }

  // ----- Operations of items.c.  The guards `a in s.items` always hold in the states of CacheInvariant.

  function Queue(s: State, c: nat): seq<Addr> {
    if c < |s.lru| then s.lru[c] else []
  }

  function SetQueue(lru: seq<seq<Addr>>, c: nat, q: seq<Addr>): seq<seq<Addr>> {
    if c < |lru| then lru[c := q] else lru
  }

  function LinkItem(s: State, a: Addr): State
    requires a in s.items
  {
    var it := s.items[a];
    s.(items := s.items[a := it.(linked := true, time := s.now, cas := s.casCounter + 1, stamp := s.totalItems + 1)],
    table := s.table[it.key := a],
    lru := SetQueue(s.lru, it.cls, [a] + Queue(s, it.cls)),
    casCounter := s.casCounter + 1,
    currItems := s.currItems + 1, currBytes := s.currBytes + it.total, totalItems := s.totalItems + 1)
  }

  /** The part of do_item_unlink before the item may be freed. */
  function Detach(s: State, a: Addr): State
    requires a in s.items
  {
    var it := s.items[a];
    s.(items := s.items[a := it.(linked := false)],
    table := s.table - {it.key},
    lru := SetQueue(s.lru, it.cls, Without(Queue(s, it.cls), a)),
    currItems := s.currItems - 1, currBytes := s.currBytes - it.total)
  }

  /** item_free is reached exactly when an item is neither linked nor referenced. */
  function FreeIfUnused(s: State, a: Addr): State {
    if a in s.items && s.items[a].refcount == 0 && !s.items[a].linked then s.(items := s.items - {a}) else s
  }

  function UnlinkItem(s: State, a: Addr): State {
    if a in s.items && s.items[a].linked then FreeIfUnused(Detach(s, a), a) else s
  }

  function TakeRef(s: State, a: Addr): State
    requires a in s.items
  {
    s.(items := s.items[a := s.items[a].(refcount := s.items[a].refcount + 1)], held := s.held + multiset{a})
  }

  function DropRef(s: State, a: Addr): State
    requires a in s.items
  {
    var n := s.items[a].refcount;
    s.(items := s.items[a := s.items[a].(refcount := if n != 0 then n - 1 else n)], held := s.held - multiset{a})
  }

  function RemoveItem(s: State, a: Addr): State {
    if a in s.items then FreeIfUnused(DropRef(s, a), a) else s
  }

  function UpdateItem(s: State, a: Addr): State
    requires a in s.items
  {
    var it := s.items[a];
    if Stale(it.time, s.now) && it.linked then
      s.(items := s.items[a := it.(time := s.now)],
      lru := SetQueue(s.lru, it.cls, [a] + Without(Queue(s, it.cls), a)))
    else s
  }

  function ReplaceItem(s: State, a: Addr, b: Addr): State {
    var s1 := UnlinkItem(s, a);
    if b in s1.items then LinkItem(s1, b) else s1
  }

  datatype Lookup = Lookup(state: State, found: Option<Addr>, locked: bool)

  /** do_item_get_notedeleted: lookup with lazy expiry, lazy flush and delete locks. */
  function GetItem(s: State, key: Bytes): Lookup {
    if key !in s.table || s.table[key] !in s.items then Lookup(s, None, false)
    else
      var a := s.table[key];
      var it := s.items[a];
      if it.deleted && !LockOver(it, s.now) then Lookup(s, None, true)
      else if Flushed(s, it) || Expired(s, it) then Lookup(UnlinkItem(s, a), None, false)
      else Lookup(TakeRef(s, a), Some(a), false)
  }

  function GetNoCheck(s: State, key: Bytes): Lookup {
    if key !in s.table || s.table[key] !in s.items then Lookup(s, None, false)
    else Lookup(TakeRef(s, s.table[key]), Some(s.table[key]), false)
  }

  function Place(s: State, a: Addr, key: Bytes, exptime: nat, o: Allocation): State {
    s.(items := s.items[a := o.stale.(key := key, total := o.total, cls := o.cls, exptime := exptime,
    linked := false, deleted := false, refcount := 1)],
    held := s.held + multiset{a})
  }

  /** The eviction step of do_item_alloc. */
  function Evict(s: State, cls: nat): State {
    match Victim(s.items, Queue(s, cls), EVICTION_TRIES)
    case None => s
    case Some(v) => UnlinkItem(s, v)
  }

  /** Whether do_item_alloc goes on to evict after the first slabs_alloc failed. */
  predicate Evicts(s: State, o: Allocation) {
    o.cls != 0 && o.first.None? && s.evictToFree && Queue(s, o.cls) != []
  }

  /** The item that do_item_alloc goes on to free when the second slabs_alloc failed as well. */
  function Repair(s: State, o: Allocation): Option<Addr> {
    var t := Evict(s, o.cls);
    if Evicts(s, o) && o.second.None? then Leaked(t.items, Queue(t, o.cls), t.now, EVICTION_TRIES) else None
  }

  /** do_item_alloc, when there is no item to repair. */
  function AllocItem(s: State, key: Bytes, exptime: nat, o: Allocation): Lookup {
    if o.cls == 0 then Lookup(s, None, false)
    else if o.first.Some? then Lookup(Place(s, o.first.value, key, exptime, o), o.first, false)
    else if !Evicts(s, o) then Lookup(s, None, false)
    else if o.second.None? then Lookup(Evict(s, o.cls), None, false)
    else Lookup(Place(Evict(s, o.cls), o.second.value, key, exptime, o), o.second, false)
  }

  /** What slabs_alloc may answer: a chunk that is in use nowhere, with room for `nbytes` of data. */
  ghost predicate AllocationOk(s: State, o: Allocation, nbytes: int) {
    && o.cls < LARGEST_ID
    && |o.stale.data| == nbytes >= 2
    && (o.first.Some? ==> o.first.value != NULL && o.first.value !in s.items)
    && (Evicts(s, o) && o.second.Some? ==> o.second.value != NULL && o.second.value !in Evict(s, o.cls).items)
  }

  function UnlinkAll(s: State, q: seq<Addr>): State
    decreases |q|
  {
    if q == [] then s else UnlinkAll(UnlinkItem(s, q[0]), q[1..])
  }

  /** do_item_flush_expired over the slab classes from `c` on. */
  function FlushFrom(s: State, c: nat): State
    decreases LARGEST_ID - c
  {
    if c >= LARGEST_ID then s
    else FlushFrom(UnlinkAll(s, FlushPrefix(s.items, Queue(s, c), s.oldestLive)), c + 1)
  }

  function FlushExpired(s: State): State {
    if s.oldestLive == 0 then s else FlushFrom(s, 0)
  }

  // ----- Storage operations of memcached.c

  /** The data do_store_item builds: the CRLF of the first part is overwritten by the second. */
  function Joined(front: Bytes, back: Bytes): Bytes {
    if |front| >= 2 then front[..|front| - 2] + back else back
  }

  function SetData(s: State, a: Addr, data: Bytes): State
    requires a in s.items
  {
    s.(items := s.items[a := s.items[a].(data := data)])
  }

  /** Link `a` in place of `prior` if there is one, and drop the reference to it. */
  function LinkOver(s: State, a: Addr, prior: Option<Addr>): State {
    match prior
    case Some(b) => RemoveItem(ReplaceItem(s, b, a), b)
    case None => if a in s.items then LinkItem(s, a) else s
  }

  datatype StoreOutcome = StoreOutcome(state: State, result: StoreResult)

  /** The append and prepend branch of do_store_item, holding a reference to `b`. */
  function StoreJoined(s: State, a: Addr, b: Addr, comm: StoreCommand, o: Allocation): StoreOutcome
    requires a in s.items && b in s.items
  {
    var r := AllocItem(s, s.items[a].key, s.items[b].exptime, o);
    if r.found.None? then StoreOutcome(RemoveItem(r.state, b), NotStored)
    else if r.found.value !in r.state.items then StoreOutcome(s, NotStored)
    else
      var n := r.found.value;
      var data := if comm == Append then Joined(s.items[b].data, s.items[a].data)
                  else Joined(s.items[a].data, s.items[b].data);
      StoreOutcome(RemoveItem(LinkOver(SetData(r.state, n, data), n, Some(b)), n), Stored)
  }

  /** do_store_item. */
  function StoreItem(s: State, a: Addr, comm: StoreCommand, o: Allocation): StoreOutcome
    requires a in s.items
  {
    var key, cas := s.items[a].key, s.items[a].cas;
    var g := GetItem(s, key);
    var s1 := g.state;
    if g.found.Some? && comm == Add then
      StoreOutcome(if g.found.value in s1.items then RemoveItem(UpdateItem(s1, g.found.value), g.found.value) else s1,
        NotStored)
    else if g.found.None? && comm in {Replace, Append, Prepend} then StoreOutcome(s1, NotStored)
    else if g.locked && comm in {Replace, Add, Append, Prepend} then StoreOutcome(s1, NotStored)
    else if comm == Cas then
      var h := if g.locked then GetNoCheck(s1, key) else g;
      if h.found.None? || h.found.value !in h.state.items then StoreOutcome(h.state, NotFound)
      else if cas == h.state.items[h.found.value].cas then StoreOutcome(LinkOver(h.state, a, h.found), Stored)
      else StoreOutcome(RemoveItem(h.state, h.found.value), Exists)
    else if comm in {Append, Prepend} then
      if a in s1.items && g.found.value in s1.items then StoreJoined(s1, a, g.found.value, comm, o)
      else StoreOutcome(s1, NotStored)
    else
      var h := if g.locked then GetNoCheck(s1, key) else g;
      StoreOutcome(LinkOver(h.state, a, h.found), Stored)
  }

  /** do_add_delta on a referenced item; `text` is the printed new value. */
  function AddDelta(s: State, a: Addr, text: Bytes, o: Allocation): State
    requires a in s.items
  {
    var it := s.items[a];
    if |text| + 2 > |it.data| then
      var r := AllocItem(s, it.key, it.exptime, o);
      if r.found.None? || r.found.value !in r.state.items then r.state
      else
        var n := r.found.value;
        RemoveItem(ReplaceItem(SetData(r.state, n, text + CRLF), a, n), n)
    else
      var data := text + seq(|it.data| - |text| - 2, _ => SPACE) + it.data[|it.data| - 2..];
      s.(items := s.items[a := it.(data := data, cas := s.casCounter + 1)], casCounter := s.casCounter + 1)
  }

  /** do_defer_delete: the caller's reference moves to the delete queue. */
  function DeferDelete(s: State, a: Addr, deadline: nat): State
    requires a in s.items
  {
    s.(items := s.items[a := s.items[a].(exptime := deadline, deleted := true)],
    todelete := s.todelete + [a], held := s.held - multiset{a},
    badLock := s.badLock || deadline == 0 || s.items[a].deleted)
  }

  /** do_run_deferred_deletes from queue position `i` on; a due entry's reference is taken back and dropped. */
  function RunDeferred(s: State, i: nat): State
    decreases |s.todelete| - i
  {
    if i >= |s.todelete| then s
    else
      var a := s.todelete[i];
      if a in s.items && LockOver(s.items[a], s.now) then RunDeferred(ReapEntry(s, i), i)
      else RunDeferred(s, i + 1)
  }

  /** The first half of reaping an entry: it is unlocked and its reference leaves the queue. */
  function Dequeue(s: State, i: nat): State
    requires i < |s.todelete| && s.todelete[i] in s.items
  {
    var a := s.todelete[i];
    s.(items := s.items[a := s.items[a].(deleted := false)],
    todelete := s.todelete[..i] + s.todelete[i + 1..], held := s.held + multiset{a})
  }

  function ReapEntry(s: State, i: nat): (r: State)
    requires i < |s.todelete| && s.todelete[i] in s.items
    ensures |r.todelete| == |s.todelete| - 1
  {
    var a := s.todelete[i];
    RemoveItem(UnlinkItem(Dequeue(s, i), a), a)
  }

  /** The engine after start-up. */
  function Initial(now: nat, started: nat, evictToFree: bool): State {
    State(map[], map[], seq(LARGEST_ID, _ => []), 0, [], multiset{}, false, now, started, 0, evictToFree, 0, 0, 0)
  }
}
