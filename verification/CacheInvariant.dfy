/** The joint invariant of the cache engine, kept by every operation of CacheSpec. */
module CacheInvariant {
  import opened Basics
  import opened CacheSpec

  // ----- The invariant

  /** An item is linked exactly when the hash table holds it, once, under its own key. */
  ghost predicate TableInv(s: State) {
    && (forall k :: k in s.table ==>
        s.table[k] in s.items && s.items[s.table[k]].linked && s.items[s.table[k]].key == k)
    && (forall a :: a in s.items && s.items[a].linked ==> s.items[a].key in s.table && s.table[s.items[a].key] == a)
  }

  /** An item is linked exactly when it is on one LRU list, once: the list of its slab class. */
  ghost predicate LruInv(s: State) {
    && |s.lru| == LARGEST_ID
    && (forall c, i :: 0 <= c < |s.lru| && 0 <= i < |s.lru[c]| ==>
      s.lru[c][i] in s.items && s.items[s.lru[c][i]].linked && s.items[s.lru[c][i]].cls == c)
    && (forall c :: 0 <= c < |s.lru| ==> Distinct(s.lru[c]))
    && (forall a :: a in s.items ==> s.items[a].cls < LARGEST_ID)
    && (forall a :: a in s.items && s.items[a].linked ==> a in s.lru[s.items[a].cls])
  }

  /** Linked items carry pairwise distinct CAS ids that the counter has already issued. */
  ghost predicate CasInv(s: State) {
    && (forall a :: a in s.items && s.items[a].linked ==> s.items[a].cas <= s.casCounter)
    && (forall a, b :: a in s.items && b in s.items && s.items[a].linked && s.items[b].linked && a != b ==>
      s.items[a].cas != s.items[b].cas)
  }

  /** Reference counts are exact, and every chunk handed out is linked or referenced. */
  ghost predicate RefInv(s: State) {
    && NULL !in s.items
    && (forall a :: a in s.items ==> s.items[a].refcount == s.held[a] + multiset(s.todelete)[a])
    && (forall a :: a in s.items ==> s.items[a].linked || s.items[a].refcount > 0)
    && (forall a :: a !in s.items ==> s.held[a] == 0 && a !in s.todelete)
    && (forall a :: a in s.items ==> |s.items[a].data| >= 2)
  }

  /** The delete queue holds exactly the delete-locked items, once each, and every lock ends after time 0. */
  ghost predicate ProperQueue(s: State) {
    && Distinct(s.todelete)
    && (forall a :: a in s.items ==> (s.items[a].deleted <==> a in s.todelete))
    && (forall a :: a in s.items && s.items[a].deleted ==> s.items[a].exptime != 0)
  }

  /** Every delete-locked item is in the delete queue, and the queue is a proper one unless a lock was bad. */
  ghost predicate DeleteInv(s: State) {
    && (forall a :: a in s.items && s.items[a].deleted ==> a in s.todelete)
    && (s.badLock || ProperQueue(s))
  }

  ghost predicate ByTime(items: map<Addr, Item>, q: seq<Addr>) {
    forall i, j :: 0 <= i < j < |q| && q[i] in items && q[j] in items ==> items[q[i]].time >= items[q[j]].time
  }

  /** Every LRU list is non-increasing in time from head to tail. */
  ghost predicate TimeInv(s: State) {
    && (forall c :: 0 <= c < |s.lru| ==> ByTime(s.items, s.lru[c]))
    && (forall a :: a in s.items && s.items[a].linked ==> s.items[a].time <= s.now)
  }

  function Linked(s: State): set<Addr> {
    set a | a in s.items && s.items[a].linked
  }

  ghost function Totals(items: map<Addr, Item>, addrs: set<Addr>): int
    requires addrs <= items.Keys
  {
    if addrs == {} then 0
    else
      var a :| a in addrs;
      items[a].total + Totals(items, addrs - {a})
  }

  /** The counters agree with what is linked. */
  ghost predicate StatInv(s: State) {
    && s.currItems == |s.table|
    && s.currItems == |Linked(s)|
    && s.currBytes == Totals(s.items, Linked(s))
    && (forall a :: a in s.items && s.items[a].linked ==> s.items[a].stamp <= s.totalItems)
  }

  ghost predicate Inv(s: State) {
    && TableInv(s) && LruInv(s) && CasInv(s) && RefInv(s) && DeleteInv(s) && TimeInv(s) && StatInv(s)
  }

  lemma InitialInv(now: nat, started: nat, evictToFree: bool)
    ensures Inv(Initial(now, started, evictToFree))
  {}

  // ----- Lists and sums

  lemma {:induction false} WithoutAt(q: seq<Addr>, a: Addr, k: nat)
    requires k < |q| && q[k] == a && Distinct(q)
    ensures Without(q, a) == q[..k] + q[k + 1..]
  {
    if k > 0 {
      WithoutAt(q[1..], a, k - 1);
      assert q[..k] == [q[0]] + q[1..][..k - 1];
    }
  }

  /** Removal keeps the other elements, their number of occurrences and their order. */
  lemma WithoutFacts(q: seq<Addr>, a: Addr) returns (k: nat)
    requires a in q && Distinct(q)
    ensures k < |q| && q[k] == a && Without(q, a) == q[..k] + q[k + 1..]
    ensures Distinct(Without(q, a)) && a !in Without(q, a)
    ensures forall b :: b in q && b != a ==> b in Without(q, a)
    ensures forall b :: b in Without(q, a) ==> b in q
  {
    k :| 0 <= k < |q| && q[k] == a;
    WithoutAt(q, a, k);
  }

  lemma {:induction false} TotalsInsert(items: map<Addr, Item>, addrs: set<Addr>, a: Addr)
    requires addrs <= items.Keys && a in addrs
    ensures Totals(items, addrs) == items[a].total + Totals(items, addrs - {a})
    decreases addrs
  {
    var b :| b in addrs && Totals(items, addrs) == items[b].total + Totals(items, addrs - {b});
    if a != b {
      TotalsInsert(items, addrs - {b}, a);
      TotalsInsert(items, addrs - {a}, b);
      assert addrs - {b} - {a} == addrs - {a} - {b};
    }
  }

  lemma {:induction false} TotalsFrame(items: map<Addr, Item>, items': map<Addr, Item>, addrs: set<Addr>)
    requires addrs <= items.Keys && addrs <= items'.Keys
    requires forall a :: a in addrs ==> items[a].total == items'[a].total
    ensures Totals(items, addrs) == Totals(items', addrs)
    decreases addrs
  {
    if addrs != {} {
      var a :| a in addrs;
      TotalsInsert(items, addrs, a);
      TotalsInsert(items', addrs, a);
      TotalsFrame(items, items', addrs - {a});
    }
  }

  // ----- Frames: changes that touch neither linkage nor sizes

  /** `s'` differs from `s` only in data, reference counts, delete locks, CAS ids and queues of references. */
  ghost predicate SameLinks(s: State, s': State) {
    && s'.items.Keys == s.items.Keys && s'.table == s.table && s'.lru == s.lru && s'.now == s.now
    && s'.currItems == s.currItems && s'.currBytes == s.currBytes && s'.totalItems == s.totalItems
    && forall a :: a in s.items ==>
      && s'.items[a].linked == s.items[a].linked && s'.items[a].key == s.items[a].key
      && s'.items[a].cls == s.items[a].cls
      && s'.items[a].time == s.items[a].time && s'.items[a].total == s.items[a].total
      && s'.items[a].stamp == s.items[a].stamp
  }

  lemma SameLinksTable(s: State, s': State)
    requires SameLinks(s, s') && TableInv(s)
    ensures TableInv(s')
  {}

  lemma SameLinksLru(s: State, s': State)
    requires SameLinks(s, s') && LruInv(s)
    ensures LruInv(s')
  {}

  lemma SameLinksTime(s: State, s': State)
    requires SameLinks(s, s') && TimeInv(s)
    ensures TimeInv(s')
  {}

  lemma SameLinksStats(s: State, s': State)
    requires SameLinks(s, s') && StatInv(s)
    ensures StatInv(s')
  {
    assert Linked(s') == Linked(s);
    TotalsFrame(s.items, s'.items, Linked(s));
  }

  lemma LinksFrame(s: State, s': State)
    requires SameLinks(s, s')
    requires TableInv(s) && LruInv(s) && TimeInv(s) && StatInv(s)
    ensures TableInv(s') && LruInv(s') && TimeInv(s') && StatInv(s')
  {
    hide SameLinks, TableInv, LruInv, TimeInv, StatInv;
    SameLinksTable(s, s'); SameLinksLru(s, s'); SameLinksTime(s, s'); SameLinksStats(s, s');
  }

  lemma CasFrame(s: State, s': State)
    requires CasInv(s) && s'.items.Keys == s.items.Keys && s'.casCounter == s.casCounter
    requires forall a :: a in s.items ==> s'.items[a].linked == s.items[a].linked && s'.items[a].cas == s.items[a].cas
    ensures CasInv(s')
  {}

  lemma DeleteFrame(s: State, s': State)
    requires DeleteInv(s) && s'.items.Keys == s.items.Keys && s'.todelete == s.todelete && s'.badLock == s.badLock
    requires forall a :: a in s.items ==>
      s'.items[a].deleted == s.items[a].deleted && s'.items[a].exptime == s.items[a].exptime
    ensures DeleteInv(s')
  {}

  lemma RefFrame(s: State, s': State)
    requires RefInv(s) && s'.items.Keys == s.items.Keys && s'.todelete == s.todelete && s'.held == s.held
    requires forall a :: a in s.items ==>
      && s'.items[a].refcount == s.items[a].refcount && (s.items[a].linked ==> s'.items[a].linked)
      && |s'.items[a].data| >= 2
    ensures RefInv(s')
  {}

  // ----- Link

  ghost predicate Linkable(s: State, a: Addr) {
    a in s.items && !s.items[a].linked && s.items[a].key !in s.table
  }

  lemma LinkTable(s: State, a: Addr)
    requires TableInv(s) && Linkable(s, a)
    ensures TableInv(LinkItem(s, a))
  {}

  lemma LinkLru(s: State, a: Addr)
    requires LruInv(s) && Linkable(s, a)
    ensures LruInv(LinkItem(s, a))
  {
    var s' := LinkItem(s, a);
    var c := s.items[a].cls;
    assert a !in s.lru[c];
    assert s'.lru[c][0] == a;
    assert forall b :: b in s.lru[c] ==> b in s'.lru[c];
  }

  lemma LinkCas(s: State, a: Addr)
    requires CasInv(s) && Linkable(s, a)
    ensures CasInv(LinkItem(s, a))
  {}

  lemma LinkTime(s: State, a: Addr)
    requires TimeInv(s) && LruInv(s) && Linkable(s, a)
    ensures TimeInv(LinkItem(s, a))
  {
    var s' := LinkItem(s, a);
    forall c | 0 <= c < |s'.lru| ensures ByTime(s'.items, s'.lru[c]) {
      assert ByTime(s.items, s.lru[c]);
      if c == s.items[a].cls {
        assert s'.lru[c] == [a] + s.lru[c];
      }
    }
  }

  lemma LinkStats(s: State, a: Addr)
    requires StatInv(s) && Linkable(s, a)
    ensures StatInv(LinkItem(s, a))
  {
    hide Linked, Totals;
    var s' := LinkItem(s, a);
    LinkLinked(s, a);
    TotalsInsert(s'.items, Linked(s'), a);
    assert Linked(s') - {a} == Linked(s);
    TotalsFrame(s.items, s'.items, Linked(s));
  }

  lemma LinkLinked(s: State, a: Addr)
    requires Linkable(s, a)
    ensures Linked(LinkItem(s, a)) == Linked(s) + {a} && a !in Linked(s)
    ensures forall b :: b in Linked(s) ==> b in s.items && s.items[b].linked
    ensures |LinkItem(s, a).table| == |s.table| + 1
  {
    assert LinkItem(s, a).table.Keys == s.table.Keys + {s.items[a].key};
  }

  lemma LinkKeeps(s: State, a: Addr)
    requires Inv(s) && Linkable(s, a)
    ensures Inv(LinkItem(s, a))
  {
    hide TableInv, LruInv, CasInv, RefInv, DeleteInv, TimeInv, StatInv;
    LinkRefs(s, a);
    LinkTable(s, a); LinkLru(s, a); LinkCas(s, a); LinkTime(s, a); LinkStats(s, a);
  }

  lemma LinkRefs(s: State, a: Addr)
    requires RefInv(s) && DeleteInv(s) && Linkable(s, a)
    ensures RefInv(LinkItem(s, a)) && DeleteInv(LinkItem(s, a))
  {
    hide RefInv, DeleteInv;
    RefData(s);
    RefFrame(s, LinkItem(s, a));
    DeleteFrame(s, LinkItem(s, a));
  }

  lemma RefData(s: State)
    requires RefInv(s)
    ensures forall a :: a in s.items ==> |s.items[a].data| >= 2
  {}

  // ----- Unlink

  lemma DetachTable(s: State, a: Addr)
    requires TableInv(s) && a in s.items && s.items[a].linked
    ensures TableInv(Detach(s, a))
  {}

  lemma DetachLru(s: State, a: Addr)
    requires LruInv(s) && a in s.items && s.items[a].linked
    ensures LruInv(Detach(s, a))
  {
    var s' := Detach(s, a);
    var c := s.items[a].cls;
    var k := WithoutFacts(s.lru[c], a);
    forall d, i | 0 <= d < |s'.lru| && 0 <= i < |s'.lru[d]|
      ensures s'.lru[d][i] in s'.items && s'.items[s'.lru[d][i]].linked && s'.items[s'.lru[d][i]].cls == d
    {
      assert s'.lru[d][i] in s.lru[d];
      if d == c { assert s'.lru[d][i] != a; }
    }
  }

  lemma DetachCas(s: State, a: Addr)
    requires CasInv(s) && a in s.items
    ensures CasInv(Detach(s, a))
  {}

  lemma DetachTime(s: State, a: Addr)
    requires TimeInv(s) && LruInv(s) && a in s.items && s.items[a].linked
    ensures TimeInv(Detach(s, a))
  {
    var s' := Detach(s, a);
    forall c | 0 <= c < |s'.lru| ensures ByTime(s'.items, s'.lru[c]) {
      assert ByTime(s.items, s.lru[c]);
      if c == s.items[a].cls {
        ByTimeWithout(s.items, s.lru[c], a);
      }
    }
  }

  lemma ByTimeWithout(items: map<Addr, Item>, q: seq<Addr>, a: Addr)
    requires ByTime(items, q) && Distinct(q) && a in q
    ensures ByTime(items, Without(q, a)) && a !in Without(q, a)
  {
    hide Without;
    var k := WithoutFacts(q, a);
    var r := Without(q, a);
    forall i, j | 0 <= i < j < |r| && r[i] in items && r[j] in items ensures items[r[i]].time >= items[r[j]].time {
      assert r[i] == q[if i < k then i else i + 1];
      assert r[j] == q[if j < k then j else j + 1];
    }
  }

  lemma DetachStats(s: State, a: Addr)
    requires StatInv(s) && TableInv(s) && a in s.items && s.items[a].linked
    ensures StatInv(Detach(s, a))
  {
    var s' := Detach(s, a);
    assert Linked(s') == Linked(s) - {a};
    TotalsInsert(s.items, Linked(s), a);
    TotalsFrame(s.items, s'.items, Linked(s'));
    assert s'.table.Keys == s.table.Keys - {s.items[a].key};
  }

  /** RefInv, except that `a` may be neither linked nor referenced. */
  ghost predicate RefInvBut(s: State, a: Addr) {
    && NULL !in s.items
    && (forall b :: b in s.items ==> s.items[b].refcount == s.held[b] + multiset(s.todelete)[b])
    && (forall b :: b in s.items && b != a ==> s.items[b].linked || s.items[b].refcount > 0)
    && (forall b :: b !in s.items ==> s.held[b] == 0 && b !in s.todelete)
    && (forall b :: b in s.items ==> |s.items[b].data| >= 2)
  }

  lemma DetachRefs(s: State, a: Addr)
    requires RefInv(s) && a in s.items
    ensures RefInvBut(Detach(s, a), a)
  {}

  lemma DetachDeletes(s: State, a: Addr)
    requires DeleteInv(s) && a in s.items
    ensures DeleteInv(Detach(s, a))
  {
    hide DeleteInv;
    DeleteFrame(s, Detach(s, a));
  }

  lemma FreeTable(s: State, a: Addr)
    requires TableInv(s) && (a in s.items ==> !s.items[a].linked)
    ensures TableInv(FreeIfUnused(s, a))
  {}

  lemma FreeLru(s: State, a: Addr)
    requires LruInv(s) && (a in s.items ==> !s.items[a].linked)
    ensures LruInv(FreeIfUnused(s, a))
  {}

  lemma FreeRefs(s: State, a: Addr)
    requires RefInvBut(s, a) && DeleteInv(s) && a in s.items && !s.items[a].linked
    ensures RefInv(FreeIfUnused(s, a)) && DeleteInv(FreeIfUnused(s, a))
  {
    hide DeleteInv, ProperQueue;
    if a in s.todelete { assert multiset(s.todelete)[a] > 0; }
    FreeDeletes(s, a);
  }

  lemma FreeDeletes(s: State, a: Addr)
    requires DeleteInv(s) && a in s.items && (s.items[a].refcount == 0 ==> a !in s.todelete)
    ensures DeleteInv(FreeIfUnused(s, a))
  {}

  lemma FreeCas(s: State, a: Addr)
    requires CasInv(s)
    ensures CasInv(FreeIfUnused(s, a))
  {}

  lemma FreeTime(s: State, a: Addr)
    requires TimeInv(s)
    ensures TimeInv(FreeIfUnused(s, a))
  {}

  lemma FreeStats(s: State, a: Addr)
    requires StatInv(s) && a in s.items && !s.items[a].linked
    ensures StatInv(FreeIfUnused(s, a))
  {
    var s' := FreeIfUnused(s, a);
    assert Linked(s') == Linked(s);
    TotalsFrame(s.items, s'.items, Linked(s));
  }

  lemma FreeKeeps(s: State, a: Addr)
    requires TableInv(s) && LruInv(s) && CasInv(s) && RefInvBut(s, a) && DeleteInv(s) && TimeInv(s) && StatInv(s)
    requires a in s.items && !s.items[a].linked
    ensures Inv(FreeIfUnused(s, a))
  {
    hide TableInv, LruInv, CasInv, RefInv, RefInvBut, DeleteInv, TimeInv, StatInv;
    FreeTable(s, a); FreeLru(s, a); FreeCas(s, a); FreeRefs(s, a); FreeTime(s, a); FreeStats(s, a);
  }

  lemma UnlinkKeeps(s: State, a: Addr)
    requires Inv(s)
    ensures Inv(UnlinkItem(s, a))
  {
    hide TableInv, LruInv, CasInv, RefInv, RefInvBut, DeleteInv, TimeInv, StatInv;
    if a in s.items && s.items[a].linked {
      DetachTable(s, a); DetachLru(s, a); DetachCas(s, a); DetachTime(s, a);
      DetachStats(s, a); DetachRefs(s, a); DetachDeletes(s, a);
      FreeKeeps(Detach(s, a), a);
    }
  }

  /** What an unlink leaves alone, and what it leaves behind. */
  lemma UnlinkFacts(s: State, a: Addr)
    requires TableInv(s)
    ensures var s' := UnlinkItem(s, a);
      && (forall b :: b in s.items && b != a ==> b in s'.items && s'.items[b] == s.items[b])
      && (a in s.items && s.items[a].refcount > 0 ==> a in s'.items && s'.items[a] == s.items[a].(linked := false))
      && (forall b :: b in s'.items ==> b in s.items)
      && (a in s.items && s.items[a].linked ==> s.items[a].key !in s'.table)
      && s'.held == s.held && s'.todelete == s.todelete && s'.casCounter == s.casCounter
      && s'.now == s.now && s'.oldestLive == s.oldestLive && s'.totalItems == s.totalItems
  {}

  // ----- References

  lemma TakeRefRefs(s: State, a: Addr)
    requires RefInv(s) && a in s.items
    ensures RefInv(TakeRef(s, a))
  {}

  lemma TakeRefKeeps(s: State, a: Addr)
    requires Inv(s) && a in s.items
    ensures Inv(TakeRef(s, a))
  {
    hide TableInv, LruInv, CasInv, RefInv, DeleteInv, TimeInv, StatInv;
    var s' := TakeRef(s, a);
    TakeRefRefs(s, a); LinksFrame(s, s'); CasFrame(s, s'); DeleteFrame(s, s');
  }

  lemma HeldFacts(s: State, a: Addr)
    requires RefInv(s) && a in s.held
    ensures a in s.items && s.items[a].refcount > 0
  {}

  lemma DropRefRefs(s: State, a: Addr)
    requires RefInv(s) && a in s.held
    ensures RefInvBut(DropRef(s, a), a)
    ensures s.items[a].linked ==> RefInv(DropRef(s, a))
  {}

  lemma DropRefFrames(s: State, a: Addr)
    requires TableInv(s) && LruInv(s) && CasInv(s) && DeleteInv(s) && TimeInv(s) && StatInv(s) && a in s.items
    ensures var s' := DropRef(s, a);
      TableInv(s') && LruInv(s') && CasInv(s') && DeleteInv(s') && TimeInv(s') && StatInv(s')
  {
    hide TableInv, LruInv, CasInv, DeleteInv, TimeInv, StatInv;
    var s' := DropRef(s, a);
    LinksFrame(s, s'); CasFrame(s, s'); DeleteFrame(s, s');
  }

  lemma RemoveKeeps(s: State, a: Addr)
    requires Inv(s) && a in s.held
    ensures Inv(RemoveItem(s, a))
    ensures RemoveItem(s, a).held == s.held - multiset{a}
  {
    hide TableInv, LruInv, CasInv, RefInv, RefInvBut, DeleteInv, TimeInv, StatInv;
    HeldFacts(s, a);
    DropRefRefs(s, a);
    DropRefFrames(s, a);
    if !s.items[a].linked {
      FreeKeeps(DropRef(s, a), a);
    }
  }

  // ----- Update, replace, lookups

  lemma UpdateLru(s: State, a: Addr)
    requires LruInv(s) && a in s.items
    ensures LruInv(UpdateItem(s, a))
  {
    var s' := UpdateItem(s, a);
    if s' != s {
      var c := s.items[a].cls;
      var k := WithoutFacts(s.lru[c], a);
      MoveToFront(s.lru[c], a);
      forall d, i | 0 <= d < |s'.lru| && 0 <= i < |s'.lru[d]|
        ensures s'.lru[d][i] in s'.items && s'.items[s'.lru[d][i]].linked && s'.items[s'.lru[d][i]].cls == d
      {
        assert s'.lru[d][i] in s.lru[d];
      }
    }
  }

  lemma PushDistinct(q: seq<Addr>, a: Addr)
    requires Distinct(q) && a !in q
    ensures Distinct([a] + q)
  {
    var r := [a] + q;
    assert forall i :: 0 < i < |r| ==> r[i] == q[i - 1] && r[i] in q;
  }

  lemma MoveToFront(q: seq<Addr>, a: Addr)
    requires a in q && Distinct(q)
    ensures var r := [a] + Without(q, a); Distinct(r) && forall b :: b in r <==> b in q
  {
    var k := WithoutFacts(q, a);
    hide Without, Distinct;
    var w := Without(q, a);
    PushDistinct(w, a);
    assert forall b :: b in [a] + w <==> b == a || b in w;
  }

  lemma UpdateTime(s: State, a: Addr)
    requires TimeInv(s) && LruInv(s) && a in s.items
    ensures TimeInv(UpdateItem(s, a))
  {
    hide ByTime, LruInv;
    var s' := UpdateItem(s, a);
    forall c | 0 <= c < |s'.lru| ensures ByTime(s'.items, s'.lru[c]) {
      UpdateQueueTime(s, a, c);
    }
  }

  lemma UpdateQueueTime(s: State, a: Addr, c: nat)
    requires TimeInv(s) && LruInv(s) && a in s.items && c < |s.lru|
    ensures c < |UpdateItem(s, a).lru| && ByTime(UpdateItem(s, a).items, UpdateItem(s, a).lru[c])
  {
    hide ByTime, Without, Distinct;
    var s' := UpdateItem(s, a);
    assert ByTime(s.items, s.lru[c]);
    if s' != s && c == s.items[a].cls {
      ByTimeWithout(s.items, s.lru[c], a);
      var k := WithoutFacts(s.lru[c], a);
      ByTimePush(s.items, s'.items, Without(s.lru[c], a), a);
    } else if s' != s {
      ByTimeFrame(s.items, s'.items, s.lru[c]);
    }
  }

  lemma ByTimeFrame(items: map<Addr, Item>, items': map<Addr, Item>, q: seq<Addr>)
    requires ByTime(items, q) && forall b :: b in q && b in items' ==> b in items && items'[b].time == items[b].time
    ensures ByTime(items', q)
  {
    forall i, j | 0 <= i < j < |q| && q[i] in items' && q[j] in items' ensures items'[q[i]].time >= items'[q[j]].time {
      assert q[i] in q && q[j] in q;
    }
  }

  lemma ByTimePush(items: map<Addr, Item>, items': map<Addr, Item>, r: seq<Addr>, a: Addr)
    requires ByTime(items, r) && a !in r
    requires forall b :: b in r && b in items' ==> b in items && items'[b].time == items[b].time
    requires a in items' ==> forall b :: b in r && b in items' ==> items'[a].time >= items'[b].time
    ensures ByTime(items', [a] + r)
  {
    var q := [a] + r;
    forall i, j | 0 <= i < j < |q| && q[i] in items' && q[j] in items' ensures items'[q[i]].time >= items'[q[j]].time {
      assert q[j] == r[j - 1] && q[j] in r;
      if i > 0 { assert q[i] == r[i - 1] && q[i] in r; }
    }
  }

  lemma UpdateTable(s: State, a: Addr)
    requires TableInv(s) && a in s.items
    ensures TableInv(UpdateItem(s, a))
  {}

  lemma UpdateStats(s: State, a: Addr)
    requires StatInv(s) && a in s.items
    ensures StatInv(UpdateItem(s, a))
  {
    var s' := UpdateItem(s, a);
    assert Linked(s') == Linked(s);
    TotalsFrame(s.items, s'.items, Linked(s));
  }

  lemma UpdateRefs(s: State, a: Addr)
    requires CasInv(s) && RefInv(s) && DeleteInv(s) && a in s.items
    ensures var s' := UpdateItem(s, a); CasInv(s') && RefInv(s') && DeleteInv(s') && s'.held == s.held
  {
    hide CasInv, RefInv, DeleteInv;
    var s' := UpdateItem(s, a);
    RefData(s);
    CasFrame(s, s'); DeleteFrame(s, s'); RefFrame(s, s');
  }

  lemma UpdateKeeps(s: State, a: Addr)
    requires Inv(s) && a in s.items
    ensures Inv(UpdateItem(s, a))
    ensures UpdateItem(s, a).held == s.held
  {
    hide TableInv, LruInv, CasInv, RefInv, DeleteInv, TimeInv, StatInv, UpdateItem;
    UpdateLru(s, a); UpdateTime(s, a); UpdateTable(s, a); UpdateStats(s, a); UpdateRefs(s, a);
  }

  lemma ReplaceKeeps(s: State, a: Addr, b: Addr)
    requires Inv(s) && a in s.items && b in s.items && a != b
    requires s.items[a].linked && !s.items[b].linked && s.items[a].key == s.items[b].key
    ensures Inv(ReplaceItem(s, a, b))
    ensures ReplaceItem(s, a, b).held == s.held
  {
    hide TableInv, LruInv, CasInv, RefInv, DeleteInv, TimeInv, StatInv;
    UnlinkKeeps(s, a);
    UnlinkFacts(s, a);
    LinkKeeps(UnlinkItem(s, a), b);
  }

  lemma TableFacts(s: State, key: Bytes)
    requires TableInv(s) && key in s.table
    ensures s.table[key] in s.items && s.items[s.table[key]].linked && s.items[s.table[key]].key == key
  {}

  lemma DeleteFacts(s: State, a: Addr)
    requires DeleteInv(s) && a in s.items && s.items[a].deleted
    ensures a in s.todelete && (s.badLock || s.items[a].exptime != 0)
  {}

  /** A found item is linked under the key, and not delete-locked unless a lock was bad; otherwise no
      reference was taken. */
  lemma GetKeeps(s: State, key: Bytes)
    requires Inv(s)
    ensures var g := GetItem(s, key);
      && Inv(g.state)
      && (g.found.Some? ==>
        && g.found.value in s.items && s.items[g.found.value].linked && s.items[g.found.value].key == key
        && (s.badLock || !s.items[g.found.value].deleted) && !g.locked
        && g.state == TakeRef(s, g.found.value))
      && (g.found.None? ==> g.state == s || (key in s.table && g.state == UnlinkItem(s, s.table[key])))
      && (g.found.None? && !g.locked ==> key !in g.state.table)
      && (g.locked ==> g.state == s && g.found.None? && key in s.table)
  {
    hide TableInv, LruInv, CasInv, RefInv, DeleteInv, TimeInv, StatInv;
    if key in s.table {
      var a := s.table[key];
      TableFacts(s, key);
      UnlinkKeeps(s, a);
      UnlinkFacts(s, a);
      TakeRefKeeps(s, a);
      if s.items[a].deleted { DeleteFacts(s, a); }
    }
  }
}
