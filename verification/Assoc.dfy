/** assoc.c: a chained hash table that doubles incrementally, one bucket at a time. */
module Assoc {
  import opened CacheSpec

  const INITIAL_POWER: nat := 16

  function Pow2(n: nat): (r: nat)
    ensures r > 0
  {
    if n == 0 then 1 else 2 * Pow2(n - 1)
  }

  /** A place a chain can hang from: a bucket of the current or of the prior table. */
  datatype Slot = Slot(prior: bool, bucket: nat)

  /** A C `item **`: the cell of a bucket, or the h_next field of an item. */
  datatype Cell = Bucket(slot: Slot) | NextOf(a: Addr)

  /** A snapshot of the variables of assoc.c, with the map they stand for (`contents`) and the items of
      every bucket.  `keyOf` and `hnext` are the key bytes and the h_next field of every item. */
  datatype Table = Table(
    hv: Bytes -> nat, keyOf: map<Addr, Bytes>, hnext: map<Addr, Addr>,
    hashpower: nat, primary: seq<Addr>, prior: seq<Addr>, expanding: bool, expandBucket: nat, hashItems: nat,
    contents: map<Bytes, Addr>, chains: seq<seq<Addr>>, priorChains: seq<seq<Addr>>)

  // ----- What it means to implement a map

  /** What an element's h_next holds: its successor in `c`. */
  function Successor(c: seq<Addr>, i: nat): Addr {
    if i + 1 < |c| then c[i + 1] else NULL
  }

  /** The addresses reached from `head` through h_next are exactly `c`. */
  ghost predicate IsChain(hnext: map<Addr, Addr>, head: Addr, c: seq<Addr>) {
    && head == (if |c| == 0 then NULL else c[0])
    && (forall i :: 0 <= i < |c| ==> c[i] != NULL && c[i] in hnext)
    && (forall i :: 0 <= i < |c| ==> hnext[c[i]] == Successor(c, i))
  }

  function OldBucket(t: Table, key: Bytes): nat {
    if t.hashpower > 0 then t.hv(key) % Pow2(t.hashpower - 1) else 0
  }

  function NewBucket(t: Table, key: Bytes): nat {
    t.hv(key) % Pow2(t.hashpower)
  }

  /** Where a key belongs: buckets not yet migrated are still in the prior table. */
  function SlotOf(t: Table, key: Bytes): Slot {
    if t.expanding && OldBucket(t, key) >= t.expandBucket then Slot(true, OldBucket(t, key))
    else Slot(false, NewBucket(t, key))
  }

  ghost predicate Sized(t: Table) {
    && |t.primary| == Pow2(t.hashpower)
    && (t.expanding ==> t.hashpower > 0 && |t.prior| == Pow2(t.hashpower - 1) && t.expandBucket < |t.prior|)
    && (!t.expanding ==> |t.prior| == 0)
  }

  predicate SlotExists(t: Table, slot: Slot) {
    slot.bucket < if slot.prior then |t.prior| else |t.primary|
  }

  function Head(t: Table, slot: Slot): Addr
    requires SlotExists(t, slot)
  {
    if slot.prior then t.prior[slot.bucket] else t.primary[slot.bucket]
  }

  function ChainAt(t: Table, slot: Slot): seq<Addr> {
    if slot.prior then if slot.bucket < |t.priorChains| then t.priorChains[slot.bucket] else []
    else if slot.bucket < |t.chains| then t.chains[slot.bucket] else []
  }

  /** `a` is in the map, under its own key. */
  ghost predicate Held(t: Table, a: Addr) {
    a in t.keyOf && t.keyOf[a] in t.contents && t.contents[t.keyOf[a]] == a
  }

  /** The items that hang from `slot` are in the map, once, and `loc` sends their keys there. */
  ghost predicate Hangs(t: Table, loc: Bytes -> Slot, slot: Slot)
    requires SlotExists(t, slot)
  {
    var c := ChainAt(t, slot);
    && IsChain(t.hnext, Head(t, slot), c) && Distinct(c)
    && forall i :: 0 <= i < |c| ==> Held(t, c[i]) && loc(t.keyOf[c[i]]) == slot
  }

  ghost predicate Reachable(t: Table, loc: Bytes -> Slot, key: Bytes)
    requires key in t.contents
  {
    var a := t.contents[key];
    a in t.keyOf && t.keyOf[a] == key && SlotExists(t, loc(key)) && a in ChainAt(t, loc(key))
  }

  /** The chains hold exactly the map, each key in the slot `loc` names. */
  ghost predicate Implements(t: Table, loc: Bytes -> Slot) {
    && |t.chains| == |t.primary| && |t.priorChains| == |t.prior|
    && (forall slot :: SlotExists(t, slot) ==> Hangs(t, loc, slot))
    && (forall k :: k in t.contents ==> Reachable(t, loc, k))
    && t.hashItems == |t.contents|
  }

  function Locate(t: Table): Bytes -> Slot {
    key => SlotOf(t, key)
  }

  ghost predicate TableOk(t: Table) {
    Sized(t) && Implements(t, Locate(t))
  }

  // ----- Lookup

  /** The chain a key belongs to decides whether the key is in the map. */
  lemma ChainDecides(t: Table, key: Bytes)
    requires TableOk(t)
    ensures SlotExists(t, SlotOf(t, key))
    ensures var c := ChainAt(t, SlotOf(t, key));
      && IsChain(t.hnext, Head(t, SlotOf(t, key)), c) && Distinct(c)
      && (forall i :: 0 <= i < |c| ==>
          c[i] in t.keyOf && (t.keyOf[c[i]] == key <==> key in t.contents && t.contents[key] == c[i]))
      && (key in t.contents ==> t.contents[key] in c && t.contents[key] in t.keyOf)
  {
    hide Sized, Implements, SlotOf, Locate;
    SlotHangs(t, key);
    assert Locate(t)(key) == SlotOf(t, key) by { LocateIs(t); }
  }

  lemma SlotHangs(t: Table, key: Bytes)
    requires TableOk(t)
    ensures SlotExists(t, SlotOf(t, key)) && Hangs(t, Locate(t), SlotOf(t, key))
    ensures key in t.contents ==> Reachable(t, Locate(t), key)
  {
    hide Hangs, Reachable;
  }

  lemma LocateIs(t: Table)
    ensures forall key :: Locate(t)(key) == SlotOf(t, key)
  {}

  /** A search along the chain of the key that has passed `i` items can still meet the key's item. */
  ghost predicate Ahead(t: Table, key: Bytes, c: seq<Addr>, i: nat) {
    && i <= |c| && IsChain(t.hnext, if |c| == 0 then NULL else c[0], c)
    && (forall j :: 0 <= j < |c| ==>
        c[j] in t.keyOf && (t.keyOf[c[j]] == key <==> key in t.contents && t.contents[key] == c[j]))
    && (key in t.contents ==> t.contents[key] in c[i..])
  }

  lemma AheadStart(t: Table, key: Bytes)
    requires TableOk(t)
    ensures SlotExists(t, SlotOf(t, key))
    ensures var c := ChainAt(t, SlotOf(t, key));
      Ahead(t, key, c, 0) && Head(t, SlotOf(t, key)) == if |c| == 0 then NULL else c[0]
  {
    ChainDecides(t, key);
    var c := ChainAt(t, SlotOf(t, key));
    assert c[0..] == c;
  }

  lemma AheadStep(t: Table, key: Bytes, c: seq<Addr>, i: nat)
    requires Ahead(t, key, c, i) && i < |c|
    ensures c[i] != NULL && c[i] in t.keyOf && c[i] in t.hnext
    ensures t.hnext[c[i]] == if i + 1 < |c| then c[i + 1] else NULL
    ensures t.keyOf[c[i]] == key ==> key in t.contents && t.contents[key] == c[i]
    ensures t.keyOf[c[i]] != key ==> Ahead(t, key, c, i + 1)
  {
    assert c[i..] == [c[i]] + c[i + 1..];
    assert t.hnext[c[i]] == Successor(c, i);
  }

  lemma AheadEnd(t: Table, key: Bytes, c: seq<Addr>, i: nat)
    requires Ahead(t, key, c, i)
    ensures (if i < |c| then c[i] else NULL) == NULL ==> key !in t.contents
  {
    if i < |c| { assert c[i] != NULL; }
  }

  // ----- Chains under pointer updates

  lemma ChainFrame(hnext: map<Addr, Addr>, hnext': map<Addr, Addr>, head: Addr, c: seq<Addr>)
    requires IsChain(hnext, head, c) && forall i :: 0 <= i < |c| ==> c[i] in hnext' && hnext'[c[i]] == hnext[c[i]]
    ensures IsChain(hnext', head, c)
  {}

  /** The successor of the i-th element once the k-th is gone. */
  lemma RemovedSuccessor(c: seq<Addr>, k: nat, i: nat)
    requires k < |c| && i < |c| - 1
    ensures var d := c[..k] + c[k + 1..];
      && d[i] == c[if i < k then i else i + 1]
      && Successor(d, i) == if i + 1 == k then Successor(c, k) else Successor(c, if i < k then i else i + 1)
  {}

  /** Unhooking the k-th element: clear its h_next and point its predecessor past it. */
  lemma ChainRemove(hnext: map<Addr, Addr>, head: Addr, c: seq<Addr>, k: nat, hnext': map<Addr, Addr>, head': Addr)
    requires IsChain(hnext, head, c) && Distinct(c) && k < |c|
    requires k == 0 ==> hnext' == hnext[c[k] := NULL] && head' == hnext[c[k]]
    requires k > 0 ==> hnext' == hnext[c[k] := NULL][c[k - 1] := hnext[c[k]]] && head' == head
    ensures IsChain(hnext', head', c[..k] + c[k + 1..])
  {
    var d := c[..k] + c[k + 1..];
    assert hnext[c[k]] == Successor(c, k);
    assert head' == if |d| == 0 then NULL else d[0];
    hide Successor;
    forall i | 0 <= i < |d| ensures d[i] != NULL && d[i] in hnext' && hnext'[d[i]] == Successor(d, i) {
      RemovedSuccessor(c, k, i);
      var j := if i < k then i else i + 1;
      assert c[j] != c[k] && hnext[c[j]] == Successor(c, j);
      assert k > 0 && j != k - 1 ==> c[j] != c[k - 1];
    }
  }

  lemma ChainPush(hnext: map<Addr, Addr>, head: Addr, c: seq<Addr>, a: Addr)
    requires IsChain(hnext, head, c) && Distinct(c) && a != NULL && a !in c
    ensures IsChain(hnext[a := head], a, [a] + c) && Distinct([a] + c)
  {
    var d, h := [a] + c, hnext[a := head];
    forall i | 0 <= i < |d| ensures d[i] != NULL && d[i] in h && h[d[i]] == Successor(d, i) {
      if i > 0 {
        assert d[i] == c[i - 1];
        assert hnext[c[i - 1]] == Successor(c, i - 1);
      }
      assert i + 1 < |d| ==> d[i + 1] == c[i];
    }
  }

  function WithSlot(t: Table, slot: Slot, head: Addr, c: seq<Addr>): Table
    requires SlotExists(t, slot) && |t.chains| == |t.primary| && |t.priorChains| == |t.prior|
  {
    if slot.prior then t.(prior := t.prior[slot.bucket := head], priorChains := t.priorChains[slot.bucket := c])
    else t.(primary := t.primary[slot.bucket := head], chains := t.chains[slot.bucket := c])
  }

  lemma WithSlotFacts(t: Table, slot: Slot, head: Addr, c: seq<Addr>, other: Slot)
    requires SlotExists(t, slot) && |t.chains| == |t.primary| && |t.priorChains| == |t.prior|
    ensures var t' := WithSlot(t, slot, head, c);
      && |t'.chains| == |t'.primary| == |t.primary| && |t'.priorChains| == |t'.prior| == |t.prior|
      && (SlotExists(t', other) <==> SlotExists(t, other))
      && ChainAt(t', other) == (if other == slot then c else ChainAt(t, other))
      && (SlotExists(t, other) ==> Head(t', other) == if other == slot then head else Head(t, other))
      && t'.hnext == t.hnext && t'.keyOf == t.keyOf && t'.contents == t.contents && t'.hv == t.hv
      && t'.hashpower == t.hashpower && t'.expanding == t.expanding && t'.expandBucket == t.expandBucket
      && t'.hashItems == t.hashItems
  {}

  /** A slot keeps hanging when its cell, its chain and its items' h_next fields stay, and its items stay in the map. */
  lemma HangsFrame(t: Table, t': Table, loc: Bytes -> Slot, slot: Slot)
    requires SlotExists(t, slot) && SlotExists(t', slot) && Hangs(t, loc, slot)
    requires ChainAt(t', slot) == ChainAt(t, slot) && Head(t', slot) == Head(t, slot)
    requires forall i :: 0 <= i < |ChainAt(t, slot)| ==> var a := ChainAt(t, slot)[i];
      a in t'.hnext && t'.hnext[a] == t.hnext[a] && Held(t', a) && t'.keyOf[a] == t.keyOf[a]
    ensures Hangs(t', loc, slot)
  {
    ChainFrame(t.hnext, t'.hnext, Head(t, slot), ChainAt(t, slot));
  }

  /** Only the location of keys in the map matters. */
  lemma Relocate(t: Table, loc: Bytes -> Slot, loc': Bytes -> Slot)
    requires Implements(t, loc) && forall k :: k in t.contents ==> loc'(k) == loc(k)
    ensures Implements(t, loc')
  {
    forall slot | SlotExists(t, slot) ensures Hangs(t, loc', slot) { assert Hangs(t, loc, slot); }
    forall k | k in t.contents ensures Reachable(t, loc', k) { assert Reachable(t, loc, k); }
  }

  // ----- Pushing an item onto a slot

  function Pushed(t: Table, a: Addr, slot: Slot): Table
    requires a in t.keyOf && SlotExists(t, slot) && |t.chains| == |t.primary| && |t.priorChains| == |t.prior|
  {
    WithSlot(t.(hnext := t.hnext[a := Head(t, slot)], contents := t.contents[t.keyOf[a] := a],
      hashItems := t.hashItems + 1),
      slot, a, [a] + ChainAt(t, slot))
  }

  lemma PushedMap(t: Table, a: Addr, slot: Slot)
    requires a in t.keyOf && SlotExists(t, slot) && |t.chains| == |t.primary| && |t.priorChains| == |t.prior|
    ensures var t' := Pushed(t, a, slot);
      t'.contents == t.contents[t.keyOf[a] := a] && t'.keyOf == t.keyOf && t'.hashItems == t.hashItems + 1
      && t'.expanding == t.expanding && t'.hashpower == t.hashpower && t'.expandBucket == t.expandBucket
  {}

  lemma PushedShape(t: Table, a: Addr, slot: Slot)
    requires a in t.keyOf && SlotExists(t, slot) && |t.chains| == |t.primary| && |t.priorChains| == |t.prior|
    ensures var t' := Pushed(t, a, slot);
      && |t'.chains| == |t'.primary| && |t'.priorChains| == |t'.prior| && t'.contents == t.contents[t.keyOf[a] := a]
      && t'.keyOf == t.keyOf && t'.hashItems == t.hashItems + 1
    ensures forall other :: SlotExists(Pushed(t, a, slot), other) <==> SlotExists(t, other)
  {}

  ghost predicate Pushable(t: Table, loc: Bytes -> Slot, a: Addr) {
    && a != NULL && a in t.keyOf && t.keyOf[a] !in t.contents && SlotExists(t, loc(t.keyOf[a]))
    && |t.chains| == |t.primary| && |t.priorChains| == |t.prior|
  }

  lemma PushFacts(t: Table, loc: Bytes -> Slot, a: Addr, slot: Slot)
    requires Pushable(t, loc, a) && SlotExists(t, slot)
    ensures var s0 := loc(t.keyOf[a]);
      var t' := Pushed(t, a, s0);
      && SlotExists(t', slot) && ChainAt(t', slot) == (if slot == s0 then [a] + ChainAt(t, s0) else ChainAt(t, slot))
      && Head(t', slot) == (if slot == s0 then a else Head(t, slot))
      && t'.hnext == t.hnext[a := Head(t, s0)] && t'.keyOf == t.keyOf && t'.contents == t.contents[t.keyOf[a] := a]
  {
    hide WithSlot;
    var s0 := loc(t.keyOf[a]);
    WithSlotFacts(t.(hnext := t.hnext[a := Head(t, s0)], contents := t.contents[t.keyOf[a] := a],
      hashItems := t.hashItems + 1),
      s0, a, [a] + ChainAt(t, s0), slot);
  }

  lemma PushSlot(t: Table, loc: Bytes -> Slot, a: Addr, slot: Slot)
    requires Pushable(t, loc, a) && SlotExists(t, slot) && Hangs(t, loc, slot)
    ensures SlotExists(Pushed(t, a, loc(t.keyOf[a])), slot) && Hangs(Pushed(t, a, loc(t.keyOf[a])), loc, slot)
  {
    hide Pushed, ChainAt, Head;
    PushFacts(t, loc, a, slot);
    var s0 := loc(t.keyOf[a]);
    var t', c := Pushed(t, a, s0), ChainAt(t, slot);
    PushHeld(t, a, t');
    if slot == s0 {
      ChainPush(t.hnext, Head(t, s0), c, a);
      forall i | 0 <= i < |c| + 1 ensures Held(t', ([a] + c)[i]) && loc(t'.keyOf[([a] + c)[i]]) == slot {
        if i > 0 { assert ([a] + c)[i] == c[i - 1]; }
      }
    } else {
      HangsFrame(t, t', loc, slot);
    }
  }

  lemma PushHeld(t: Table, a: Addr, t': Table)
    requires a in t.keyOf && t.keyOf[a] !in t.contents && t'.keyOf == t.keyOf
    requires t'.contents == t.contents[t.keyOf[a] := a]
    ensures Held(t', a) && forall b :: Held(t, b) ==> Held(t', b) && b != a
  {}

  lemma PushReach(t: Table, loc: Bytes -> Slot, a: Addr, k: Bytes)
    requires Pushable(t, loc, a) && (k in t.contents ==> Reachable(t, loc, k))
    requires k in Pushed(t, a, loc(t.keyOf[a])).contents
    ensures Reachable(Pushed(t, a, loc(t.keyOf[a])), loc, k)
  {
    var s0 := loc(t.keyOf[a]);
    var t' := Pushed(t, a, s0);
    WithSlotFacts(t.(hnext := t.hnext[a := Head(t, s0)], contents := t.contents[t.keyOf[a] := a],
      hashItems := t.hashItems + 1),
      s0, a, [a] + ChainAt(t, s0), loc(k));
    if k == t.keyOf[a] { assert ChainAt(t', s0)[0] == a; }
  }

  /** Pushing an item whose key is new adds exactly that key. */
  lemma PushOk(t: Table, loc: Bytes -> Slot, a: Addr)
    requires Implements(t, loc) && Pushable(t, loc, a)
    ensures Implements(Pushed(t, a, loc(t.keyOf[a])), loc)
    ensures Pushed(t, a, loc(t.keyOf[a])).contents == t.contents[t.keyOf[a] := a]
  {
    hide Hangs, Reachable, Pushed;
    var t' := Pushed(t, a, loc(t.keyOf[a]));
    PushedShape(t, a, loc(t.keyOf[a]));
    forall slot | SlotExists(t', slot) ensures Hangs(t', loc, slot) {
      PushSlot(t, loc, a, slot);
    }
    forall k | k in t'.contents ensures Reachable(t', loc, k) {
      PushReach(t, loc, a, k);
    }
    assert t'.contents.Keys == t.contents.Keys + {t.keyOf[a]};
  }

  // ----- Unhooking the k-th item of a slot

  ghost predicate Unhookable(t: Table, loc: Bytes -> Slot, slot: Slot, k: nat) {
    && SlotExists(t, slot) && |t.chains| == |t.primary| && |t.priorChains| == |t.prior| && t.hashItems > 0
    && k < |ChainAt(t, slot)| && Hangs(t, loc, slot)
  }

  /** The effect outside the slot itself: the item's h_next is cleared, its predecessor skips it, its key goes. */
  function Bypassed(t: Table, slot: Slot, k: nat): Table
    requires k < |ChainAt(t, slot)| && ChainAt(t, slot)[k] in t.hnext && ChainAt(t, slot)[k] in t.keyOf
    requires t.hashItems > 0
  {
    var c := ChainAt(t, slot);
    t.(hnext := if k == 0 then t.hnext[c[k] := NULL] else t.hnext[c[k] := NULL][c[k - 1] := t.hnext[c[k]]],
    contents := t.contents - {t.keyOf[c[k]]}, hashItems := t.hashItems - 1)
  }

  function Unhooked(t: Table, slot: Slot, k: nat): Table
    requires SlotExists(t, slot) && |t.chains| == |t.primary| && |t.priorChains| == |t.prior|
    requires k < |ChainAt(t, slot)| && ChainAt(t, slot)[k] in t.hnext && ChainAt(t, slot)[k] in t.keyOf
    requires t.hashItems > 0
  {
    var c := ChainAt(t, slot);
    WithSlot(Bypassed(t, slot, k), slot, if k == 0 then t.hnext[c[0]] else Head(t, slot), c[..k] + c[k + 1..])
  }

  lemma UnhookedFields(t: Table, slot: Slot, k: nat)
    requires SlotExists(t, slot) && |t.chains| == |t.primary| && |t.priorChains| == |t.prior|
    requires k < |ChainAt(t, slot)| && ChainAt(t, slot)[k] in t.hnext && ChainAt(t, slot)[k] in t.keyOf
    requires t.hashItems > 0
    ensures var c, u := ChainAt(t, slot), Unhooked(t, slot, k);
      var it, rest := c[k], c[..k] + c[k + 1..];
      && u == t.(hnext := u.hnext, prior := u.prior, primary := u.primary, contents := t.contents - {t.keyOf[it]},
                 hashItems := t.hashItems - 1, chains := u.chains, priorChains := u.priorChains)
      && u.hnext == (if k == 0 then t.hnext[it := NULL] else t.hnext[it := NULL][c[k - 1] := t.hnext[it]])
      && u.prior == (if k == 0 && slot.prior then t.prior[slot.bucket := t.hnext[it]] else t.prior)
      && u.primary == (if k == 0 && !slot.prior then t.primary[slot.bucket := t.hnext[it]] else t.primary)
      && u.chains == (if slot.prior then t.chains else t.chains[slot.bucket := rest])
      && u.priorChains == (if slot.prior then t.priorChains[slot.bucket := rest] else t.priorChains)
  {
    SameHead(t, slot);
  }

  lemma SameHead(t: Table, slot: Slot)
    requires SlotExists(t, slot)
    ensures slot.prior ==> t.prior[slot.bucket := Head(t, slot)] == t.prior
    ensures !slot.prior ==> t.primary[slot.bucket := Head(t, slot)] == t.primary
  {}

  lemma UnhookedMap(t: Table, slot: Slot, k: nat)
    requires SlotExists(t, slot) && |t.chains| == |t.primary| && |t.priorChains| == |t.prior|
    requires k < |ChainAt(t, slot)| && ChainAt(t, slot)[k] in t.hnext && ChainAt(t, slot)[k] in t.keyOf
    requires t.hashItems > 0
    ensures Unhooked(t, slot, k).keyOf == t.keyOf
    ensures Unhooked(t, slot, k).contents == t.contents - {t.keyOf[ChainAt(t, slot)[k]]}
  {}

  lemma UnhookFacts(t: Table, loc: Bytes -> Slot, s0: Slot, k: nat, slot: Slot)
    requires Unhookable(t, loc, s0, k)
    ensures var c := ChainAt(t, s0);
      && c[k] in t.hnext && c[k] in t.keyOf
      && var t' := Unhooked(t, s0, k);
      && |t'.chains| == |t'.primary| == |t.primary| && |t'.priorChains| == |t'.prior| == |t.prior|
      && (SlotExists(t', slot) <==> SlotExists(t, slot))
      && ChainAt(t', slot) == (if slot == s0 then c[..k] + c[k + 1..] else ChainAt(t, slot))
      && (SlotExists(t, slot) ==>
        Head(t', slot) == if slot == s0 then (if k == 0 then t.hnext[c[0]] else Head(t, s0)) else Head(t, slot))
      && t'.hnext == Bypassed(t, s0, k).hnext && t'.keyOf == t.keyOf
      && t'.contents == t.contents - {t.keyOf[c[k]]} && t'.hashItems == t.hashItems - 1
  {
    var c := ChainAt(t, s0);
    WithSlotFacts(Bypassed(t, s0, k), s0, if k == 0 then t.hnext[c[0]] else Head(t, s0), c[..k] + c[k + 1..], slot);
  }

  lemma UnhookSame(t: Table, loc: Bytes -> Slot, slot: Slot, k: nat)
    requires Unhookable(t, loc, slot, k)
    ensures ChainAt(t, slot)[k] in t.hnext && ChainAt(t, slot)[k] in t.keyOf
    ensures SlotExists(Unhooked(t, slot, k), slot) && Hangs(Unhooked(t, slot, k), loc, slot)
  {
    UnhookFacts(t, loc, slot, k, slot);
    hide Unhooked, ChainAt;
    var t' := Unhooked(t, slot, k);
    var c := ChainAt(t, slot);
    var d := c[..k] + c[k + 1..];
    ChainRemove(t.hnext, Head(t, slot), c, k, t'.hnext, Head(t', slot));
    RemovedHeld(t, loc, slot, c, k, t');
    RemovedDistinct(c, k);
  }

  lemma RemovedHeld(t: Table, loc: Bytes -> Slot, slot: Slot, c: seq<Addr>, k: nat, t': Table)
    requires Distinct(c) && k < |c| && Held(t, c[k])
    requires forall i :: 0 <= i < |c| ==> Held(t, c[i]) && loc(t.keyOf[c[i]]) == slot
    requires t'.keyOf == t.keyOf && t'.contents == t.contents - {t.keyOf[c[k]]}
    ensures var d := c[..k] + c[k + 1..]; forall i :: 0 <= i < |d| ==> Held(t', d[i]) && loc(t'.keyOf[d[i]]) == slot
  {
    var d := c[..k] + c[k + 1..];
    forall i | 0 <= i < |d| ensures Held(t', d[i]) && loc(t'.keyOf[d[i]]) == slot {
      var j := if i < k then i else i + 1;
      assert d[i] == c[j] && c[j] != c[k];
    }
  }

  lemma RemovedDistinct(c: seq<Addr>, k: nat)
    requires Distinct(c) && k < |c|
    ensures Distinct(c[..k] + c[k + 1..])
  {}

  lemma UnhookOther(t: Table, loc: Bytes -> Slot, s0: Slot, k: nat, slot: Slot)
    requires Unhookable(t, loc, s0, k) && SlotExists(t, slot) && Hangs(t, loc, slot) && slot != s0
    ensures ChainAt(t, s0)[k] in t.hnext && ChainAt(t, s0)[k] in t.keyOf
    ensures SlotExists(Unhooked(t, s0, k), slot) && Hangs(Unhooked(t, s0, k), loc, slot)
  {
    hide Unhooked, ChainAt;
    UnhookFacts(t, loc, s0, k, slot);
    HangsFrame(t, Unhooked(t, s0, k), loc, slot);
  }

  lemma UnhookReach(t: Table, loc: Bytes -> Slot, s0: Slot, k: nat, key: Bytes)
    requires Unhookable(t, loc, s0, k) && key in t.contents && Reachable(t, loc, key)
    requires key != t.keyOf[ChainAt(t, s0)[k]]
    ensures ChainAt(t, s0)[k] in t.hnext && ChainAt(t, s0)[k] in t.keyOf
    ensures key in Unhooked(t, s0, k).contents && Reachable(Unhooked(t, s0, k), loc, key)
  {
    UnhookFacts(t, loc, s0, k, loc(key));
    hide Unhooked, ChainAt;
    var c := ChainAt(t, s0);
    if loc(key) == s0 { StaysIn(c, k, t.contents[key]); }
  }

  lemma StaysIn(c: seq<Addr>, k: nat, a: Addr)
    requires k < |c| && a in c && a != c[k]
    ensures a in c[..k] + c[k + 1..]
  {
    var j :| 0 <= j < |c| && c[j] == a;
    assert (c[..k] + c[k + 1..])[if j < k then j else j - 1] == a;
  }

  lemma UnhookSlots(t: Table, loc: Bytes -> Slot, slot: Slot, k: nat, s: Slot)
    requires Implements(t, loc) && Unhookable(t, loc, slot, k) && SlotExists(t, s)
    ensures ChainAt(t, slot)[k] in t.hnext && ChainAt(t, slot)[k] in t.keyOf
    ensures SlotExists(Unhooked(t, slot, k), s) && Hangs(Unhooked(t, slot, k), loc, s)
  {
    hide Hangs, Reachable, Unhooked, ChainAt, Head;
    if s == slot { UnhookSame(t, loc, slot, k); } else { UnhookOther(t, loc, slot, k, s); }
  }

  /** Unhooking an item removes exactly its key. */
  lemma UnhookOk(t: Table, loc: Bytes -> Slot, slot: Slot, k: nat)
    requires Implements(t, loc) && Unhookable(t, loc, slot, k)
    ensures ChainAt(t, slot)[k] in t.hnext && ChainAt(t, slot)[k] in t.keyOf
    ensures Implements(Unhooked(t, slot, k), loc)
    ensures Unhooked(t, slot, k).contents == t.contents - {t.keyOf[ChainAt(t, slot)[k]]}
  {
    hide Hangs, Reachable, Unhooked, ChainAt, Head;
    UnhookFacts(t, loc, slot, k, slot);
    UnhookHeld(t, loc, slot, k);
    var t' := Unhooked(t, slot, k);
    assert t'.contents.Keys == t.contents.Keys - {t.keyOf[ChainAt(t, slot)[k]]};
    forall s | SlotExists(t', s) ensures Hangs(t', loc, s) {
      UnhookFacts(t, loc, slot, k, s);
      UnhookSlots(t, loc, slot, k, s);
    }
    forall key | key in t'.contents ensures Reachable(t', loc, key) {
      UnhookReach(t, loc, slot, k, key);
    }
  }

  lemma UnhookHeld(t: Table, loc: Bytes -> Slot, slot: Slot, k: nat)
    requires Unhookable(t, loc, slot, k)
    ensures ChainAt(t, slot)[k] in t.keyOf && t.keyOf[ChainAt(t, slot)[k]] in t.contents
  {}

  // ----- Migration of one bucket

  function Moved(t: Table, loc: Bytes -> Slot, key: Bytes): Bytes -> Slot {
    k => if k == key then Slot(false, NewBucket(t, key)) else loc(k)
  }

  /** The state after the first item of the bucket being migrated went to its new bucket. */
  function MoveFirst(t: Table, a: Addr, c: seq<Addr>, b: nat): Table
    requires a in t.hnext && b < |t.primary| && b < |t.chains| && t.expandBucket < |t.prior|
    requires t.expandBucket < |t.priorChains|
  {
    t.(hnext := t.hnext[a := t.primary[b]], primary := t.primary[b := a], chains := t.chains[b := [a] + t.chains[b]],
    prior := t.prior[t.expandBucket := t.hnext[a]], priorChains := t.priorChains[t.expandBucket := c])
  }

  lemma FirstFacts(t: Table, loc: Bytes -> Slot, slot: Slot)
    requires Implements(t, loc) && SlotExists(t, slot) && ChainAt(t, slot) != []
    ensures var a := ChainAt(t, slot)[0];
      && a in t.hnext && Held(t, a) && loc(t.keyOf[a]) == slot && Distinct(ChainAt(t, slot))
      && a != NULL && Head(t, slot) == a && t.hashItems > 0 && Unhookable(t, loc, slot, 0)
      && t.hnext[a] == Successor(ChainAt(t, slot), 0)
  {
    assert Hangs(t, loc, slot);
    assert Held(t, ChainAt(t, slot)[0]);
    assert t.contents.Keys != {};
  }

  /** Unhooking an item and pushing it elsewhere is what the migration loop does to the pointers. */
  lemma MoveIsUnhookThenPush(t: Table, a: Addr, c: seq<Addr>, b: nat)
    requires |t.chains| == |t.primary| && |t.priorChains| == |t.prior| && t.hashItems > 0
    requires t.expandBucket < |t.prior| && b < |t.primary|
    requires t.priorChains[t.expandBucket] == [a] + c && t.prior[t.expandBucket] == a && a in t.hnext && Held(t, a)
    ensures Pushed(Unhooked(t, Slot(true, t.expandBucket), 0), a, Slot(false, b)) == MoveFirst(t, a, c, b)
  {
    var s0 := Slot(true, t.expandBucket);
    var t1 := Unhooked(t, s0, 0);
    assert ([a] + c)[..0] + ([a] + c)[1..] == c;
    assert t.hnext[a := NULL][a := t.primary[b]] == t.hnext[a := t.primary[b]];
    assert (t.contents - {t.keyOf[a]})[t.keyOf[a] := a] == t.contents;
  }

  /** One iteration of the migration loop leaves the map alone. */
  lemma MoveFirstOk(t: Table, loc: Bytes -> Slot, a: Addr, c: seq<Addr>)
    requires Implements(t, loc) && t.expandBucket < |t.prior| && |t.primary| == Pow2(t.hashpower)
    requires t.priorChains[t.expandBucket] == [a] + c
    ensures a in t.hnext && a in t.keyOf
    ensures Implements(MoveFirst(t, a, c, NewBucket(t, t.keyOf[a])), Moved(t, loc, t.keyOf[a]))
  {
    hide Hangs, Reachable, Unhookable;
    var s0 := Slot(true, t.expandBucket);
    FirstFacts(t, loc, s0);
    var key := t.keyOf[a];
    UnhookOk(t, loc, s0, 0);
    UnhookFacts(t, loc, s0, 0, Slot(false, NewBucket(t, key)));
    MoveIsUnhookThenPush(t, a, c, NewBucket(t, key));
    hide Unhooked, MoveFirst, ChainAt;
    var t1 := Unhooked(t, s0, 0);
    Relocate(t1, loc, Moved(t, loc, key));
    PushOk(t1, Moved(t, loc, key), a);
  }

  /** A chain may hang from another slot of another table with the same items. */
  lemma HangsTransfer(t: Table, loc: Bytes -> Slot, slot: Slot, t': Table, loc': Bytes -> Slot, slot': Slot)
    requires SlotExists(t, slot) && SlotExists(t', slot') && Hangs(t, loc, slot)
    requires t'.hnext == t.hnext && t'.keyOf == t.keyOf && t'.contents == t.contents
    requires ChainAt(t', slot') == ChainAt(t, slot) && Head(t', slot') == Head(t, slot)
    requires forall k :: k in t.contents && loc(k) == slot ==> loc'(k) == slot'
    ensures Hangs(t', loc', slot')
  {}

  lemma ReachTransfer(t: Table, loc: Bytes -> Slot, t': Table, loc': Bytes -> Slot, k: Bytes)
    requires k in t.contents && Reachable(t, loc, k)
    requires t'.keyOf == t.keyOf && t'.contents == t.contents
    requires SlotExists(t', loc'(k)) && ChainAt(t', loc'(k)) == ChainAt(t, loc(k))
    ensures Reachable(t', loc', k)
  {}

  /** Only chains matter to the map, not the variables that locate keys. */
  lemma Reconfigure(t: Table, t': Table, loc: Bytes -> Slot)
    requires Implements(t, loc)
    requires t' == t.(hashpower := t'.hashpower, expanding := t'.expanding, expandBucket := t'.expandBucket)
    ensures Implements(t', loc)
  {
    hide Hangs, Reachable;
    forall slot | SlotExists(t', slot) ensures Hangs(t', loc, slot) {
      assert SlotExists(t, slot);
      HangsTransfer(t, loc, slot, t', loc, slot);
    }
    forall k | k in t'.contents ensures Reachable(t', loc, k) {
      ReachExists(t, loc, k);
      ReachTransfer(t, loc, t', loc, k);
    }
  }

  lemma ReachExists(t: Table, loc: Bytes -> Slot, k: Bytes)
    requires k in t.contents && Reachable(t, loc, k)
    ensures SlotExists(t, loc(k)) && ChainAt(t, loc(k)) != []
  {}

  /** Once every key is in the new table, the old one can be freed. */
  lemma DropPrior(t: Table, loc: Bytes -> Slot)
    requires Implements(t, loc) && forall k :: k in t.contents ==> !loc(k).prior
    ensures Implements(t.(prior := [], priorChains := []), loc)
  {
    hide Hangs, Reachable;
    var t' := t.(prior := [], priorChains := []);
    forall slot | SlotExists(t', slot) ensures Hangs(t', loc, slot) {
      assert SlotExists(t, slot);
      HangsTransfer(t, loc, slot, t', loc, slot);
    }
    forall k | k in t'.contents ensures Reachable(t', loc, k) {
      ReachExists(t, loc, k);
      ReachTransfer(t, loc, t', loc, k);
    }
  }

  function Started(t: Table): Table {
    t.(prior := t.primary, priorChains := t.chains, hashpower := t.hashpower + 1,
    primary := seq(Pow2(t.hashpower + 1), _ => NULL), chains := seq(Pow2(t.hashpower + 1), _ => []),
    expanding := true, expandBucket := 0)
  }

  lemma StartSlot(t: Table, loc: Bytes -> Slot, loc': Bytes -> Slot, slot: Slot)
    requires |t.chains| == |t.primary| && SlotExists(Started(t), slot)
    requires slot.prior ==> SlotExists(t, Slot(false, slot.bucket)) && Hangs(t, loc, Slot(false, slot.bucket))
    requires forall k :: loc'(k) == Slot(true, loc(k).bucket)
    ensures Hangs(Started(t), loc', slot)
  {
    if slot.prior {
      HangsTransfer(t, loc, Slot(false, slot.bucket), Started(t), loc', slot);
    }
  }

  /** Starting an expansion: everything is in the old table, the new one is empty. */
  lemma StartOk(t: Table)
    requires TableOk(t) && !t.expanding
    ensures TableOk(Started(t))
  {
    hide Hangs, Reachable;
    var t', loc, loc' := Started(t), Locate(t), Locate(Started(t));
    assert forall k :: SlotOf(t', k) == Slot(true, NewBucket(t, k)) && SlotOf(t, k) == Slot(false, NewBucket(t, k));
    forall slot | SlotExists(t', slot) ensures Hangs(t', loc', slot) {
      assert slot.prior ==> SlotExists(t, Slot(false, slot.bucket));
      StartSlot(t, loc, loc', slot);
    }
    forall k | k in t'.contents ensures Reachable(t', loc', k) {
      ReachExists(t, loc, k);
      ReachTransfer(t, loc, t', loc', k);
    }
  }

  /** Deleting at the place _hashitem_before found removes exactly that key. */
  lemma DeleteOk(t: Table, key: Bytes, k: nat)
    requires TableOk(t) && key in t.contents && k < |ChainAt(t, SlotOf(t, key))|
    requires ChainAt(t, SlotOf(t, key))[k] == t.contents[key]
    ensures |t.chains| == |t.primary| && |t.priorChains| == |t.prior| && SlotExists(t, SlotOf(t, key))
    ensures t.hashItems > 0
    ensures t.contents[key] in t.hnext && t.contents[key] in t.keyOf && t.keyOf[t.contents[key]] == key
    ensures k == 0 ==> Head(t, SlotOf(t, key)) == t.contents[key]
    ensures TableOk(Unhooked(t, SlotOf(t, key), k))
  {
    hide Hangs, Reachable, Unhooked;
    DeletePrepare(t, key, k);
    UnhookedLocates(t, SlotOf(t, key), k);
  }

  lemma DeletePrepare(t: Table, key: Bytes, k: nat)
    requires TableOk(t) && key in t.contents && k < |ChainAt(t, SlotOf(t, key))|
    requires ChainAt(t, SlotOf(t, key))[k] == t.contents[key]
    ensures Unhookable(t, Locate(t), SlotOf(t, key), k)
    ensures t.contents[key] in t.hnext && t.contents[key] in t.keyOf && t.keyOf[t.contents[key]] == key
    ensures k == 0 ==> Head(t, SlotOf(t, key)) == t.contents[key]
  {
    assert Reachable(t, Locate(t), key);
    assert Hangs(t, Locate(t), SlotOf(t, key));
    assert t.contents.Keys != {};
  }

  /** Unhooking moves no bucket boundary. */
  lemma UnhookedLocates(t: Table, slot: Slot, k: nat)
    requires TableOk(t) && Unhookable(t, Locate(t), slot, k)
    ensures ChainAt(t, slot)[k] in t.hnext && ChainAt(t, slot)[k] in t.keyOf
    ensures TableOk(Unhooked(t, slot, k))
  {
    hide Hangs, Reachable, Unhooked, Sized;
    UnhookOk(t, Locate(t), slot, k);
    UnhookedSized(t, slot, k);
    var t' := Unhooked(t, slot, k);
    Relocate(t', Locate(t), Locate(t'));
  }

  lemma UnhookedSized(t: Table, slot: Slot, k: nat)
    requires Sized(t) && |t.chains| == |t.primary| && |t.priorChains| == |t.prior|
    requires SlotExists(t, slot) && k < |ChainAt(t, slot)| && ChainAt(t, slot)[k] in t.hnext
    requires ChainAt(t, slot)[k] in t.keyOf && t.hashItems > 0
    ensures Sized(Unhooked(t, slot, k)) && forall key :: SlotOf(Unhooked(t, slot, k), key) == SlotOf(t, key)
  {}

  lemma InsertOk(t: Table, a: Addr)
    requires TableOk(t) && a != NULL && a in t.keyOf && t.keyOf[a] !in t.contents
    ensures |t.chains| == |t.primary| && |t.priorChains| == |t.prior| && SlotExists(t, SlotOf(t, t.keyOf[a]))
    ensures TableOk(Pushed(t, a, SlotOf(t, t.keyOf[a])))
  {
    hide Hangs, Reachable;
    var slot := SlotOf(t, t.keyOf[a]);
    PushOk(t, Locate(t), a);
    PushedSized(t, a, slot);
    var t' := Pushed(t, a, slot);
    hide Pushed, Sized;
    Relocate(t', Locate(t), Locate(t'));
  }

  lemma PushedSized(t: Table, a: Addr, slot: Slot)
    requires Sized(t) && |t.chains| == |t.primary| && |t.priorChains| == |t.prior| && SlotExists(t, slot)
    requires a in t.keyOf
    ensures Sized(Pushed(t, a, slot)) && forall key :: SlotOf(Pushed(t, a, slot), key) == SlotOf(t, key)
  {}

  // ----- The whole migration loop

  /** Where a key is part-way through migrating a bucket of `t`, when `rest` is still to be moved. */
  function PartLocation(t: Table, rest: seq<Addr>, k: Bytes): Slot {
    if OldBucket(t, k) == t.expandBucket && k in t.contents && t.contents[k] !in rest then Slot(false, NewBucket(t, k))
    else SlotOf(t, k)
  }

  ghost predicate MigratedTo(t: Table, m: Table, loc: Bytes -> Slot, rest: seq<Addr>) {
    && t.expanding && Sized(t) && |m.primary| == |t.primary| && |m.prior| == |t.prior| == |m.priorChains|
    && Implements(m, loc)
    && m.hv == t.hv && m.hashpower == t.hashpower && m.expandBucket == t.expandBucket && m.contents == t.contents
    && m.keyOf == t.keyOf && m.expanding && m.priorChains[t.expandBucket] == rest
    && forall k :: k in t.contents ==> loc(k) == PartLocation(t, rest, k)
  }

  lemma ExpansionFacts(t: Table)
    requires TableOk(t) && t.expanding
    ensures t.hashpower > 0 && t.expandBucket < |t.prior| == Pow2(t.hashpower - 1)
  {}

  lemma MigrationStart(t: Table)
    requires TableOk(t) && t.expanding
    ensures t.hashpower > 0 && t.expandBucket < |t.prior| == |t.priorChains|
    ensures MigratedTo(t, t, Locate(t), t.priorChains[t.expandBucket])
  {
    hide Hangs, Reachable;
    forall k | k in t.contents ensures Locate(t)(k) == PartLocation(t, t.priorChains[t.expandBucket], k) {
      StartLocation(t, k);
    }
  }

  lemma StartLocation(t: Table, k: Bytes)
    requires Sized(t) && t.expanding && k in t.contents && Reachable(t, Locate(t), k) && |t.priorChains| == |t.prior|
    ensures SlotOf(t, k) == PartLocation(t, t.priorChains[t.expandBucket], k)
  {}

  lemma MigrationStep(t: Table, m: Table, loc: Bytes -> Slot, a: Addr, rest: seq<Addr>)
    requires MigratedTo(t, m, loc, rest) && a != NULL && m.prior[t.expandBucket] == a
    ensures rest != [] && rest[0] == a && a in m.hnext && a in m.keyOf && |m.chains| == |m.primary|
    ensures |m.priorChains| == |m.prior|
    ensures NewBucket(t, m.keyOf[a]) < |m.primary| && t.expandBucket < |m.prior|
    ensures MigratedTo(t, MoveFirst(m, a, rest[1..], NewBucket(t, m.keyOf[a])), Moved(t, loc, m.keyOf[a]), rest[1..])
  {
    hide Hangs, Reachable, PartLocation;
    var s0 := Slot(true, t.expandBucket);
    MigrationNonempty(t, m, loc, rest);
    FirstFacts(m, loc, s0);
    assert rest == [a] + rest[1..];
    var key := m.keyOf[a];
    MoveFirstOk(m, loc, a, rest[1..]);
    Relocate(MoveFirst(m, a, rest[1..], NewBucket(t, key)), Moved(m, loc, key), Moved(t, loc, key));
    forall k | k in t.contents ensures Moved(t, loc, key)(k) == PartLocation(t, rest[1..], k) {
      OwnKey(m, loc, k);
      MovedLocation(t, loc, key, a, rest, k);
    }
  }

  lemma MovedLocation(t: Table, loc: Bytes -> Slot, key: Bytes, a: Addr, rest: seq<Addr>, k: Bytes)
    requires k in t.contents && key in t.contents && t.contents[key] == a && (t.contents[k] == a ==> k == key)
    requires rest != [] && rest[0] == a && Distinct(rest)
    requires loc(key) == Slot(true, t.expandBucket) == PartLocation(t, rest, key) && loc(k) == PartLocation(t, rest, k)
    ensures Moved(t, loc, key)(k) == PartLocation(t, rest[1..], k)
  {
    assert rest == [a] + rest[1..];
    assert a !in rest[1..];
  }

  lemma MigrationNonempty(t: Table, m: Table, loc: Bytes -> Slot, rest: seq<Addr>)
    requires MigratedTo(t, m, loc, rest) && m.prior[t.expandBucket] != NULL
    ensures rest != []
  {
    assert Hangs(m, loc, Slot(true, t.expandBucket));
  }

  lemma OwnKey(t: Table, loc: Bytes -> Slot, k: Bytes)
    requires Implements(t, loc) && k in t.contents
    ensures t.contents[k] in t.keyOf && t.keyOf[t.contents[k]] == k
  {
    assert Reachable(t, loc, k);
  }

  /** The variables after a migrated bucket is closed. */
  function Finished(m: Table): Table {
    var t := m.(expandBucket := m.expandBucket + 1);
    if m.hashpower > 0 && t.expandBucket == Pow2(m.hashpower - 1)
    then t.(expanding := false, prior := [], priorChains := [])
    else t
  }

  lemma FinishedFields(t: Table, m: Table, loc: Bytes -> Slot)
    requires MigratedTo(t, m, loc, []) && m.expanding && m.hashpower > 0
    ensures var f := Finished(m);
      && f.keyOf == t.keyOf && f.contents == t.contents && f.hashItems == m.hashItems && f.hashpower == t.hashpower
      && f.expandBucket == t.expandBucket + 1 && (f.expanding <==> f.expandBucket < Pow2(f.hashpower - 1))
  {
    hide Implements, PartLocation, Pow2;
    assert t.expandBucket < Pow2(t.hashpower - 1);
  }

  lemma MigrationEnd(t: Table, m: Table, loc: Bytes -> Slot)
    requires MigratedTo(t, m, loc, [])
    ensures TableOk(Finished(m))
  {
    hide Hangs, Reachable;
    var f := Finished(m);
    var t1 := m.(expandBucket := m.expandBucket + 1);
    FinishedLocates(t, m, loc);
    Reconfigure(m, t1, loc);
    if !f.expanding {
      DropPrior(t1, loc);
      Reconfigure(t1.(prior := [], priorChains := []), f, loc);
    }
    Relocate(f, loc, Locate(f));
  }

  lemma FinishedLocates(t: Table, m: Table, loc: Bytes -> Slot)
    requires MigratedTo(t, m, loc, [])
    ensures forall k :: k in t.contents ==> loc(k) == SlotOf(Finished(m), k)
    ensures !Finished(m).expanding ==> forall k :: k in t.contents ==> !loc(k).prior
  {
    hide Implements, PartLocation, SlotOf;
    forall k | k in t.contents ensures loc(k) == SlotOf(Finished(m), k) && (!Finished(m).expanding ==> !loc(k).prior) {
      FinishedLocation(t, m, k);
    }
  }

  lemma FinishedLocation(t: Table, m: Table, k: Bytes)
    requires Sized(t) && t.expanding && m.expanding && k in t.contents
    requires m.hv == t.hv && m.hashpower == t.hashpower && m.expandBucket == t.expandBucket
    ensures PartLocation(t, [], k) == SlotOf(Finished(m), k)
    ensures !Finished(m).expanding ==> !SlotOf(Finished(m), k).prior
  {
    assert OldBucket(t, k) < Pow2(t.hashpower - 1);
  }

  /** At the end of the chain nothing is left to move. */
  lemma MigrationDone(t: Table, m: Table, loc: Bytes -> Slot, rest: seq<Addr>)
    requires MigratedTo(t, m, loc, rest) && m.prior[t.expandBucket] == NULL
    ensures rest == []
  {
    assert Hangs(m, loc, Slot(true, t.expandBucket));
  }

  lemma FreshKeySlot(t: Table, t': Table, slot: Slot, a: Addr, key: Bytes)
    requires SlotExists(t, slot) && Hangs(t, Locate(t), slot) && forall k :: k in t.contents ==> t.contents[k] != a
    requires t' == t.(keyOf := t.keyOf[a := key], hnext := t.hnext[a := NULL])
    ensures Hangs(t', Locate(t'), slot)
  {
    hide IsChain, Distinct, SlotOf;
    var c := ChainAt(t, slot);
    forall k ensures SlotOf(t', k) == SlotOf(t, k) { FreshKeyLocates(t, t', k); }
    forall i | 0 <= i < |c| ensures c[i] != a && Held(t', c[i]) && t'.keyOf[c[i]] == t.keyOf[c[i]] {
      assert Held(t, c[i]);
    }
    ChainLinked(t.hnext, Head(t, slot), c);
    ChainFrame(t.hnext, t'.hnext, Head(t, slot), c);
  }

  lemma FreshKeyLocates(t: Table, t': Table, k: Bytes)
    requires t' == t.(keyOf := t'.keyOf, hnext := t'.hnext)
    ensures SlotOf(t', k) == SlotOf(t, k)
  {}

  lemma ChainLinked(hnext: map<Addr, Addr>, head: Addr, c: seq<Addr>)
    requires IsChain(hnext, head, c)
    ensures forall i :: 0 <= i < |c| ==> c[i] in hnext
  {}

  /** A chunk outside the map may get a new key. */
  lemma FreshKeyOk(t: Table, a: Addr, key: Bytes)
    requires TableOk(t) && forall k :: k in t.contents ==> t.contents[k] != a
    ensures TableOk(t.(keyOf := t.keyOf[a := key], hnext := t.hnext[a := NULL]))
  {
    hide Hangs, Reachable;
    var t' := t.(keyOf := t.keyOf[a := key], hnext := t.hnext[a := NULL]);
    forall slot | SlotExists(t', slot) ensures Hangs(t', Locate(t'), slot) {
      assert SlotExists(t, slot);
      FreshKeySlot(t, t', slot, a, key);
    }
    forall k | k in t'.contents ensures Reachable(t', Locate(t'), k) {
      FreshKeyReach(t, t', k, a, key);
    }
  }

  lemma FreshKeyReach(t: Table, t': Table, k: Bytes, a: Addr, key: Bytes)
    requires k in t.contents && t.contents[k] != a && Reachable(t, Locate(t), k)
    requires t' == t.(keyOf := t.keyOf[a := key], hnext := t.hnext[a := NULL])
    ensures Reachable(t', Locate(t'), k)
  {
    assert SlotOf(t', k) == SlotOf(t, k);
  }

  class AssocTable {
    const hv: Bytes -> nat
    var keyOf: map<Addr, Bytes>
    var hnext: map<Addr, Addr>
    var hashpower: nat
    var primary: seq<Addr>
    var prior: seq<Addr>
    var expanding: bool
    var expandBucket: nat
    var hashItems: nat
    ghost var contents: map<Bytes, Addr>
    ghost var chains: seq<seq<Addr>>
    ghost var priorChains: seq<seq<Addr>>

    ghost function View(): Table
      reads this
    {
      Table(hv, keyOf, hnext, hashpower, primary, prior, expanding, expandBucket, hashItems, contents, chains,
        priorChains)
    }

    ghost predicate Valid()
      reads this
    {
      TableOk(View())
    }

    /** assoc_init. */
    constructor (hv: Bytes -> nat)
      ensures Valid() && this.hv == hv && contents == map[] && keyOf == map[] && !expanding && hashItems == 0
    {
      this.hv := hv;
      keyOf, hnext := map[], map[];
      hashpower := INITIAL_POWER;
      primary := seq(Pow2(INITIAL_POWER), _ => NULL);
      prior := [];
      expanding, expandBucket, hashItems := false, 0, 0;
      contents := map[];
      chains := seq(Pow2(INITIAL_POWER), _ => []);
      priorChains := [];
    }

    /** The bucket a lookup of `key` starts from. */
    method FirstCell(key: Bytes) returns (slot: Slot, it: Addr)
      requires Valid()
      ensures SlotExists(View(), SlotOf(View(), key)) && slot == SlotOf(View(), key) && it == Head(View(), slot)
    {
      ChainDecides(View(), key);
      hide TableOk, ChainAt;
      var oldBucket := if hashpower > 0 then hv(key) % Pow2(hashpower - 1) else 0;
      if expanding && oldBucket >= expandBucket {
        slot, it := Slot(true, oldBucket), prior[oldBucket];
      } else {
        slot, it := Slot(false, hv(key) % Pow2(hashpower)), primary[hv(key) % Pow2(hashpower)];
      }
    }

    /** assoc_find. */
    method Find(key: Bytes) returns (it: Addr)
      requires Valid()
      ensures it == (if key in contents then contents[key] else NULL)
    {
      hide TableOk, ChainAt, SlotOf, Ahead;
      var slot;
      slot, it := FirstCell(key);
      ghost var t := View();
      ghost var c, i := ChainAt(t, slot), 0;
      AheadStart(t, key);
      while it != NULL
        invariant i <= |c| && Ahead(t, key, c, i) && it == (if i < |c| then c[i] else NULL)
        decreases |c| - i
      {
        AheadStep(t, key, c, i);
        if keyOf[it] == key {
          return;
        }
        it := hnext[it];
        i := i + 1;
      }
      AheadEnd(t, key, c, i);
    }

    /** _hashitem_before: the cell that points at the item with this key, or the empty cell at the end. */
    method HashItemBefore(key: Bytes, ghost t: Table) returns (pos: Cell, it: Addr, ghost k: nat)
      requires Valid() && t == View()
      ensures SlotExists(t, SlotOf(t, key)) && k <= |ChainAt(t, SlotOf(t, key))|
      ensures pos == (if k == 0 then Bucket(SlotOf(t, key)) else NextOf(ChainAt(t, SlotOf(t, key))[k - 1]))
      ensures it == (if k < |ChainAt(t, SlotOf(t, key))| then ChainAt(t, SlotOf(t, key))[k] else NULL)
      ensures it == (if key in contents then contents[key] else NULL)
      ensures key in contents ==> k < |ChainAt(t, SlotOf(t, key))|
    {
      hide TableOk, ChainAt, SlotOf, Ahead;
      var slot;
      slot, it := FirstCell(key);
      ghost var c := ChainAt(t, slot);
      pos, k := Bucket(slot), 0;
      AheadStart(t, key);
      while it != NULL
        invariant k <= |c| && Ahead(t, key, c, k) && it == (if k < |c| then c[k] else NULL)
        invariant pos == (if k == 0 then Bucket(slot) else NextOf(c[k - 1]))
        decreases |c| - k
      {
        AheadStep(t, key, c, k);
        if keyOf[it] == key {
          return;
        }
        pos := NextOf(it);
        it := hnext[it];
        k := k + 1;
      }
      AheadEnd(t, key, c, k);
    }

    /** assoc_delete; its callers only delete what they can find. */
    method Delete(key: Bytes)
      requires Valid() && key in contents
      modifies this
      ensures Valid() && keyOf == old(keyOf)
      ensures contents == old(contents) - {key}
    {
      hide TableOk, SlotOf, Unhooked;
      ghost var t := View();
      ghost var slot := SlotOf(t, key);
      var before, it, k := HashItemBefore(key, t);
      ghost var c := ChainAt(t, slot);
      DeleteOk(t, key, k);
      Bypass(before, it, key, slot, k);
      UnhookedMap(t, slot, k);
    }

    /** The cell in front of the item skips it. */
    method Bypass(before: Cell, it: Addr, key: Bytes, ghost slot: Slot, ghost k: nat)
      requires SlotExists(View(), slot) && |chains| == |primary| && |priorChains| == |prior| && hashItems > 0
      requires k < |ChainAt(View(), slot)| && it == ChainAt(View(), slot)[k] && it in hnext && it in keyOf
      requires keyOf[it] == key
      requires before == (if k == 0 then Bucket(slot) else NextOf(ChainAt(View(), slot)[k - 1]))
      modifies this`hnext, this`prior, this`primary, this`priorChains, this`chains, this`contents, this`hashItems
      ensures View() == Unhooked(old(View()), slot, k)
    {
      hide SlotOf, Unhooked;
      ghost var t, c := View(), ChainAt(View(), slot);
      UnhookedFields(t, slot, k);
      hashItems := hashItems - 1;
      var nxt := hnext[it];
      hnext := hnext[it := NULL];
      contents := contents - {key};
      Redirect(before, nxt);
      RecordChain(slot, c[..k] + c[k + 1..]);
    }

    /** The cell in front of an item gets another successor. */
    method Redirect(before: Cell, nxt: Addr)
      requires before.Bucket? ==> SlotExists(View(), before.slot)
      modifies this`hnext, this`prior, this`primary
      ensures hnext == if before.NextOf? then old(hnext)[before.a := nxt] else old(hnext)
      ensures prior == if before.Bucket? && before.slot.prior then old(prior)[before.slot.bucket := nxt] else old(prior)
      ensures primary ==
        if before.Bucket? && !before.slot.prior then old(primary)[before.slot.bucket := nxt] else old(primary)
    {
      match before {
        case Bucket(s) =>
          if s.prior { prior := prior[s.bucket := nxt]; } else { primary := primary[s.bucket := nxt]; }
        case NextOf(a) =>
          hnext := hnext[a := nxt];
      }
    }

    ghost method RecordChain(slot: Slot, c: seq<Addr>)
      requires if slot.prior then slot.bucket < |priorChains| else slot.bucket < |chains|
      modifies this`priorChains, this`chains
      ensures priorChains == if slot.prior then old(priorChains)[slot.bucket := c] else old(priorChains)
      ensures chains == if slot.prior then old(chains) else old(chains)[slot.bucket := c]
    {
      if slot.prior {
        priorChains := priorChains[slot.bucket := c];
      } else {
        chains := chains[slot.bucket := c];
      }
    }

    /** assoc_insert: the key must be new. */
    method Insert(it: Addr)
      requires Valid() && it != NULL && it in keyOf && keyOf[it] !in contents
      modifies this
      ensures Valid() && keyOf == old(keyOf)
      ensures contents == old(contents)[keyOf[it] := it] && hashItems == old(hashItems) + 1
      ensures hashpower == old(hashpower) + if !old(expanding) && hashItems > Pow2(old(hashpower)) * 3 / 2 then 1 else 0
      ensures old(expanding) ==> expanding && expandBucket == old(expandBucket)
    {
      hide TableOk, SlotOf, Pushed;
      ghost var t := View();
      InsertOk(t, it);
      var slot, head := FirstCell(keyOf[it]);
      HangFirst(it, slot, head);
      PushedMap(t, it, slot);
      if !expanding && hashItems > Pow2(hashpower) * 3 / 2 {
        Expand();
      }
    }

    /** The item becomes the head of its chain. */
    method HangFirst(it: Addr, slot: Slot, head: Addr)
      requires it in keyOf && SlotExists(View(), slot) && |chains| == |primary| && |priorChains| == |prior|
      requires head == Head(View(), slot)
      modifies this`hnext, this`prior, this`primary, this`priorChains, this`chains, this`contents, this`hashItems
      ensures View() == Pushed(old(View()), it, slot)
    {
      hnext := hnext[it := head];
      if slot.prior {
        prior := prior[slot.bucket := it];
        priorChains := priorChains[slot.bucket := [it] + priorChains[slot.bucket]];
      } else {
        primary := primary[slot.bucket := it];
        chains := chains[slot.bucket := [it] + chains[slot.bucket]];
      }
      contents := contents[keyOf[it] := it];
      hashItems := hashItems + 1;
    }

    /** assoc_expand. */
    method Expand()
      requires Valid() && !expanding
      modifies this
      ensures Valid() && keyOf == old(keyOf) && contents == old(contents) && hashItems == old(hashItems)
      ensures hashpower == old(hashpower) + 1
      ensures expandBucket == 1 && (expanding <==> 1 < Pow2(old(hashpower)))
    {
      hide TableOk;
      StartOk(View());
      ghost var t := View();
      prior := primary;
      primary := seq(Pow2(hashpower + 1), _ => NULL);
      hashpower := hashpower + 1;
      expanding := true;
      expandBucket := 0;
      priorChains := chains;
      chains := seq(Pow2(hashpower), _ => []);
      assert View() == Started(t);
      MoveNextBucket();
    }

    /** The loop of do_assoc_move_next_bucket: the bucket's items go to the new table, one by one. */
    method MoveBucketItems(ghost t: Table) returns (ghost loc: Bytes -> Slot)
      requires Valid() && expanding && t == View()
      modifies this`hnext, this`primary, this`chains
      ensures t.expandBucket < |prior| == |priorChains|
      ensures MigratedTo(t,
        View().(prior := prior[expandBucket := NULL], priorChains := priorChains[expandBucket := []]), loc, [])
    {
      hide TableOk, MigratedTo;
      MigrationStart(t);
      var it := prior[expandBucket];
      ghost var rest := priorChains[expandBucket];
      loc := Locate(t);
      assert prior == prior[expandBucket := it] && priorChains == priorChains[expandBucket := rest];
      ghost var m := t;
      while it != NULL
        invariant m == View().(prior := prior[expandBucket := it], priorChains := priorChains[expandBucket := rest])
        invariant MigratedTo(t, m, loc, rest)
        decreases |rest|
      {
        MigrationStep(t, m, loc, it, rest);
        var next := hnext[it];
        var bucket := hv(keyOf[it]) % Pow2(hashpower);
        m := MoveFirst(m, it, rest[1..], bucket);
        hnext := hnext[it := primary[bucket]];
        primary := primary[bucket := it];
        chains := chains[bucket := [it] + chains[bucket]];
        loc := Moved(t, loc, keyOf[it]);
        it := next;
        rest := rest[1..];
      }
      MigrationDone(t, m, loc, rest);
    }

    /** do_assoc_move_next_bucket: the map stays as it is, and an expansion ends with its last bucket. */
    method MoveNextBucket()
      requires Valid()
      modifies this
      ensures Valid() && keyOf == old(keyOf) && contents == old(contents) && hashItems == old(hashItems)
      ensures hashpower == old(hashpower)
      ensures !old(expanding) ==> View() == old(View())
      ensures old(expanding) ==>
        expandBucket == old(expandBucket) + 1 && (expanding <==> expandBucket < Pow2(hashpower - 1))
    {
      hide TableOk, MigratedTo, Finished;
      if expanding {
        ghost var t := View();
        ExpansionFacts(t);
        ghost var loc := MoveBucketItems(t);
        ghost var m := View().(prior := prior[expandBucket := NULL], priorChains := priorChains[expandBucket := []]);
        MigrationEnd(t, m, loc);
        CloseBucket();
        FinishedFields(t, m, loc);
      }
    }

    /** The end of do_assoc_move_next_bucket: the bucket is cleared, and the old table dropped after the last one. */
    method CloseBucket()
      requires hashpower > 0 && expandBucket < |prior| && expandBucket < |priorChains| && expanding
      modifies this`prior, this`priorChains, this`expandBucket, this`expanding
      ensures View() ==
        Finished(old(View().(prior := prior[expandBucket := NULL], priorChains := priorChains[expandBucket := []])))
    {
      prior := prior[expandBucket := NULL];
      priorChains := priorChains[expandBucket := []];
      expandBucket := expandBucket + 1;
      if expandBucket == Pow2(hashpower - 1) {
        expanding := false;
        prior, priorChains := [], [];
      }
    }

    /** do_item_alloc writes the key of a fresh chunk and clears its h_next. */
    method SetKey(a: Addr, key: Bytes)
      requires Valid() && forall k :: k in contents ==> contents[k] != a
      modifies this
      ensures Valid() && keyOf == old(keyOf)[a := key]
      ensures contents == old(contents) && hashItems == old(hashItems)
    {
      hide TableOk;
      FreshKeyOk(View(), a, key);
      keyOf := keyOf[a := key];
      hnext := hnext[a := NULL];
    }
  }
}
