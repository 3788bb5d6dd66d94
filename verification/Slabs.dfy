/** slabs.c: pages of equal chunks per size class, with a free-slot stack and a partly carved last page. */
module Slabs {
  import opened CacheSpec

  const POWER_SMALLEST: nat := 1
  const POWER_LARGEST: nat := 200
  const POWER_BLOCK: nat := 1048576
  const CHUNK_ALIGN_BYTES: nat := 8

  /** slabclass_t.  `slots` and `slabList` are the malloced arrays, of sl_total and list_size elements. */
  datatype SlabClass = SlabClass(
    size: nat, perslab: nat, slots: seq<Addr>, slCurr: nat,
    endPagePtr: Addr, endPageFree: nat, slabs: nat, slabList: seq<Addr>)

  // ----- One class

  function Chunk(p: SlabClass, page: nat, k: nat): Addr
    requires page < |p.slabList|
  {
    p.slabList[page] + k * p.size
  }

  /** `a` is a chunk that has been handed out before: one of the first chunks of the last page, or any
      chunk of an earlier page. */
  ghost predicate Carved(p: SlabClass, a: Addr) {
    exists page, k :: 0 <= page < p.slabs <= |p.slabList| && 0 <= k < p.perslab && a == Chunk(p, page, k)
      && (page + 1 == p.slabs ==> k + p.endPageFree < p.perslab)
  }

  ghost predicate Shaped(p: SlabClass) {
    && p.size > 0 && p.perslab > 0 && p.slCurr <= |p.slots| && p.slabs <= |p.slabList|
    && (p.endPagePtr == NULL <==> p.endPageFree == 0)
    && p.endPageFree <= p.perslab
    && (p.endPageFree > 0 ==> p.slabs > 0 && p.endPagePtr == Chunk(p, p.slabs - 1, p.perslab - p.endPageFree))
    && (forall i :: 0 <= i < p.slabs ==> p.slabList[i] != NULL)
  }

  /** Every chunk is in use, on the free stack, or not yet carved, and never two of these. */
  ghost predicate ClassOk(p: SlabClass, inUse: set<Addr>) {
    && Shaped(p)
    && Distinct(p.slots[..p.slCurr])
    && (forall i :: 0 <= i < p.slCurr ==> p.slots[i] !in inUse && p.slots[i] != NULL)
    && (forall i :: 0 <= i < p.slCurr ==> Carved(p, p.slots[i]))
    && (forall a :: a in inUse ==> Carved(p, a) && a != NULL)
    && |inUse| + p.slCurr + p.endPageFree == p.slabs * p.perslab
  }

  predicate HasFree(p: SlabClass) {
    p.endPagePtr != NULL || p.slCurr != 0
  }

  // ----- All classes

  /** Two pages of the allocator do not overlap. */
  predicate Apart(a: Addr, n: nat, b: Addr, m: nat) {
    a + n <= b || b + m <= a
  }

  function PageBytes(p: SlabClass): nat {
    p.size * p.perslab
  }

  predicate IsPage(classes: seq<SlabClass>, c: int, i: int) {
    0 <= c < |classes| && 0 <= i < classes[c].slabs <= |classes[c].slabList|
  }

  ghost predicate PagesApart(classes: seq<SlabClass>) {
    forall c, d, i, j :: IsPage(classes, c, i) && IsPage(classes, d, j) && (c != d || i != j) ==>
      Apart(classes[c].slabList[i], PageBytes(classes[c]), classes[d].slabList[j], PageBytes(classes[d]))
  }

  /** A region that no page touches. */
  ghost predicate Unused(classes: seq<SlabClass>, a: Addr, n: nat) {
    forall c, i :: IsPage(classes, c, i) ==> Apart(a, n, classes[c].slabList[i], PageBytes(classes[c]))
  }

  /** Bytes of all pages, and of one page for every class that has any. */
  function TotalBytes(classes: seq<SlabClass>): nat {
    if classes == [] then 0 else classes[0].slabs * PageBytes(classes[0]) + TotalBytes(classes[1..])
  }

  function FirstPages(classes: seq<SlabClass>): nat {
    if classes == [] then 0 else (if classes[0].slabs > 0 then PageBytes(classes[0]) else 0) + FirstPages(classes[1..])
  }

  lemma {:induction false} SumsUpdate(classes: seq<SlabClass>, id: nat, p: SlabClass)
    requires id < |classes| && PageBytes(p) == PageBytes(classes[id])
    ensures TotalBytes(classes[id := p]) ==
      TotalBytes(classes) + p.slabs * PageBytes(p) - classes[id].slabs * PageBytes(p)
    ensures FirstPages(classes[id := p]) == FirstPages(classes)
      + (if p.slabs > 0 then PageBytes(p) else 0) - (if classes[id].slabs > 0 then PageBytes(p) else 0)
  {
    if id == 0 {
      assert classes[0 := p][1..] == classes[1..];
    } else {
      SumsUpdate(classes[1..], id - 1, p);
      assert classes[id := p][1..] == classes[1..][id - 1 := p];
    }
  }

  // ----- Chunks do not overlap

  lemma ChunkInPage(p: SlabClass, page: nat, k: nat)
    requires page < |p.slabList| && k < p.perslab
    ensures p.slabList[page] <= Chunk(p, page, k) && Chunk(p, page, k) + p.size <= p.slabList[page] + PageBytes(p)
  {
    assert k * p.size + p.size == (k + 1) * p.size <= p.perslab * p.size;
  }

  lemma SamePage(p: SlabClass, page: nat, k: nat, l: nat)
    requires page < |p.slabList| && k < l
    ensures Chunk(p, page, k) + p.size <= Chunk(p, page, l)
  {
    assert k * p.size + p.size == (k + 1) * p.size <= l * p.size;
  }

  lemma PlacesDisjoint(classes: seq<SlabClass>, c: nat, d: nat, i: nat, j: nat, k: nat, l: nat)
    requires PagesApart(classes) && IsPage(classes, c, i) && IsPage(classes, d, j)
    requires k < classes[c].perslab && l < classes[d].perslab && (c != d || i != j || k != l)
    ensures Apart(Chunk(classes[c], i, k), classes[c].size, Chunk(classes[d], j, l), classes[d].size)
  {
    ChunkInPage(classes[c], i, k);
    ChunkInPage(classes[d], j, l);
    if c == d && i == j {
      if k < l { SamePage(classes[c], i, k, l); } else { SamePage(classes[c], i, l, k); }
    }
  }

  lemma CarvedPlace(p: SlabClass, a: Addr) returns (i: nat, k: nat)
    requires Carved(p, a)
    ensures i < p.slabs <= |p.slabList| && k < p.perslab && a == Chunk(p, i, k)
    ensures (i + 1 == p.slabs ==> k + p.endPageFree < p.perslab)
  {
    i, k :| 0 <= i < p.slabs <= |p.slabList| && 0 <= k < p.perslab && a == Chunk(p, i, k)
      && (i + 1 == p.slabs ==> k + p.endPageFree < p.perslab);
  }

  /** Any two chunks handed out, of any classes, share no byte. */
  lemma ChunksDisjoint(classes: seq<SlabClass>, c: nat, d: nat, a: Addr, b: Addr)
    requires c < |classes| && d < |classes| && PagesApart(classes)
    requires Carved(classes[c], a) && Carved(classes[d], b) && (c != d || a != b)
    ensures Apart(a, classes[c].size, b, classes[d].size)
  {
    var i, k := CarvedPlace(classes[c], a);
    var j, l := CarvedPlace(classes[d], b);
    PlacesDisjoint(classes, c, d, i, j, k, l);
  }

  /** The next chunk at the end of the last page has never been handed out. */
  lemma EndIsNew(classes: seq<SlabClass>, c: nat)
    requires c < |classes| && PagesApart(classes) && Shaped(classes[c]) && classes[c].endPageFree > 0
    ensures !Carved(classes[c], classes[c].endPagePtr)
  {
    var p := classes[c];
    if Carved(p, p.endPagePtr) {
      var i, k := CarvedPlace(p, p.endPagePtr);
      PlacesDisjoint(classes, c, c, i, p.slabs - 1, k, p.perslab - p.endPageFree);
      assert false;
    }
  }

  // ----- State changes of one class

  lemma NewPageOk(p: SlabClass, inUse: set<Addr>, q: SlabClass, ptr: Addr)
    requires ClassOk(p, inUse) && p.endPageFree == 0 && ptr != NULL
    requires |q.slabList| > p.slabs && q.slabList[..p.slabs] == p.slabList[..p.slabs] && q.slabList[p.slabs] == ptr
    requires q == p.(slabList := q.slabList, endPagePtr := ptr, endPageFree := p.perslab, slabs := p.slabs + 1)
    ensures ClassOk(q, inUse)
  {
    forall a | Carved(p, a) ensures Carved(q, a) {
      var i, k := CarvedPlace(p, a);
      assert q.slabList[i] == q.slabList[..p.slabs][i] == p.slabList[i];
      assert a == Chunk(q, i, k);
    }
    assert forall i :: 0 <= i < p.slabs ==> q.slabList[i] == q.slabList[..p.slabs][i];
    assert (p.slabs + 1) * p.perslab == p.slabs * p.perslab + p.perslab;
    assert Chunk(q, p.slabs, 0) == ptr;
  }

  lemma PopOk(p: SlabClass, inUse: set<Addr>)
    requires ClassOk(p, inUse) && p.slCurr > 0
    ensures p.slots[p.slCurr - 1] !in inUse && p.slots[p.slCurr - 1] != NULL
    ensures ClassOk(p.(slCurr := p.slCurr - 1), inUse + {p.slots[p.slCurr - 1]})
  {
    var q := p.(slCurr := p.slCurr - 1);
    assert p.slots[..p.slCurr][p.slCurr - 1] == p.slots[p.slCurr - 1];
    assert forall i :: 0 <= i < p.slCurr ==> p.slots[..p.slCurr][i] == p.slots[i];
    forall a | Carved(p, a) ensures Carved(q, a) {
      var i, k := CarvedPlace(p, a);
      assert a == Chunk(q, i, k);
    }
  }

  /** Taking the next chunk off the end of the last page. */
  function CarveNext(p: SlabClass): SlabClass
    requires p.endPageFree > 0
  {
    p.(endPageFree := p.endPageFree - 1, endPagePtr := if p.endPageFree > 1 then p.endPagePtr + p.size else NULL)
  }

  lemma CarveOk(p: SlabClass, inUse: set<Addr>)
    requires ClassOk(p, inUse) && p.endPageFree > 0 && !Carved(p, p.endPagePtr)
    ensures p.endPagePtr !in inUse && ClassOk(CarveNext(p), inUse + {p.endPagePtr})
  {
    hide Carved, Shaped, Distinct;
    CarveMore(p);
    CarveShape(p);
    assert forall i :: 0 <= i < p.slCurr ==> Carved(p, p.slots[i]);
  }

  lemma CarveShape(p: SlabClass)
    requires Shaped(p) && p.endPageFree > 0
    ensures Shaped(CarveNext(p)) && Carved(CarveNext(p), p.endPagePtr) && p.endPagePtr != NULL
  {
    var q, k := CarveNext(p), p.perslab - p.endPageFree;
    assert k * p.size + p.size == (k + 1) * p.size;
    assert p.endPagePtr == Chunk(q, p.slabs - 1, k);
  }

  /** What was carved stays carved. */
  lemma CarveMore(p: SlabClass)
    requires p.endPageFree > 0
    ensures forall b :: Carved(p, b) ==> Carved(CarveNext(p), b)
  {
    forall b | Carved(p, b) ensures Carved(CarveNext(p), b) {
      var i, k := CarvedPlace(p, b);
      assert b == Chunk(CarveNext(p), i, k);
    }
  }

  lemma PushFreeOk(p: SlabClass, inUse: set<Addr>, a: Addr, slots: seq<Addr>)
    requires ClassOk(p, inUse) && a in inUse
    requires p.slCurr < |slots| && slots[..p.slCurr] == p.slots[..p.slCurr] && slots[p.slCurr] == a
    ensures ClassOk(p.(slots := slots, slCurr := p.slCurr + 1), inUse - {a})
  {
    var q := p.(slots := slots, slCurr := p.slCurr + 1);
    assert forall i :: 0 <= i < p.slCurr ==> slots[i] == slots[..p.slCurr][i] == p.slots[i];
    assert slots[..q.slCurr] == p.slots[..p.slCurr] + [a];
    forall b | Carved(p, b) ensures Carved(q, b) {
      var i, k := CarvedPlace(p, b);
      assert b == Chunk(q, i, k);
    }
    assert a !in p.slots[..p.slCurr];
  }

  lemma {:induction false} EmptySums(classes: seq<SlabClass>)
    requires forall c :: 0 <= c < |classes| ==> classes[c].slabs == 0
    ensures TotalBytes(classes) == 0 && FirstPages(classes) == 0
  {
    if classes != [] { EmptySums(classes[1..]); }
  }

  /** Adding an unused page to a class keeps the pages apart. */
  lemma AddPageApart(classes: seq<SlabClass>, id: nat, q: SlabClass)
    requires id < |classes| && PagesApart(classes)
    requires var p := classes[id];
      && PageBytes(q) == PageBytes(p) && q.slabs == p.slabs + 1 <= |q.slabList| && p.slabs <= |p.slabList|
      && q.slabList[..p.slabs] == p.slabList[..p.slabs] && Unused(classes, q.slabList[p.slabs], PageBytes(p))
    ensures PagesApart(classes[id := q])
  {
    var cs := classes[id := q];
    forall c, i | IsPage(cs, c, i) && !(c == id && i == classes[id].slabs)
      ensures IsPage(classes, c, i) && cs[c].slabList[i] == classes[c].slabList[i]
      ensures PageBytes(cs[c]) == PageBytes(classes[c])
    {
      if c == id { assert q.slabList[..classes[id].slabs][i] == classes[id].slabList[..classes[id].slabs][i]; }
    }
  }

  /** A change of a class that keeps its pages. */
  lemma SamePagesApart(classes: seq<SlabClass>, id: nat, q: SlabClass)
    requires id < |classes| && PagesApart(classes)
    requires q.slabs == classes[id].slabs && q.slabList == classes[id].slabList
    requires PageBytes(q) == PageBytes(classes[id])
    ensures PagesApart(classes[id := q])
  {
    var cs := classes[id := q];
    forall c, i | IsPage(cs, c, i)
      ensures IsPage(classes, c, i) && cs[c].slabList[i] == classes[c].slabList[i]
      ensures PageBytes(cs[c]) == PageBytes(classes[c])
    {}
  }

  /** Doubling an array keeps its elements. */
  function Grown(xs: seq<Addr>): (r: seq<Addr>)
    ensures |r| > |xs| && r[..|xs|] == xs
  {
    xs + seq(if |xs| != 0 then |xs| else 16, _ => NULL)
  }

  /** Every page lies in the part of the preallocated region that has been consumed. */
  ghost predicate InRegion(classes: seq<SlabClass>, low: Addr, high: Addr) {
    forall c, i :: IsPage(classes, c, i) ==>
      low <= classes[c].slabList[i] && classes[c].slabList[i] + PageBytes(classes[c]) <= high
  }

  const NO_CLASS := SlabClass(0, 0, [], 0, NULL, 0, 0, [])

  function EmptyClass(size: nat): (p: SlabClass)
    requires size > 0
    ensures p.size == size
  {
    NO_CLASS.(size := size, perslab := POWER_BLOCK / size)
  }

  /** Chunk sizes grow from class to class, are aligned, reach at most half a page, and end with a whole page. */
  ghost predicate SizesOk(classes: seq<SlabClass>, largest: nat) {
    && POWER_SMALLEST <= largest < |classes|
    && (forall c :: POWER_SMALLEST <= c < largest ==>
      0 < classes[c].size <= POWER_BLOCK / 2 && classes[c].size % CHUNK_ALIGN_BYTES == 0)
    && (forall c :: POWER_SMALLEST <= c < largest ==> classes[c].size <= classes[c + 1].size)
    && classes[largest].size == POWER_BLOCK
  }

  /** The next multiple of the chunk alignment. */
  function Aligned(size: nat): (r: nat)
    ensures size <= r < size + CHUNK_ALIGN_BYTES && r % CHUNK_ALIGN_BYTES == 0
    ensures size <= POWER_BLOCK / 2 ==> r <= POWER_BLOCK / 2
  {
    if size % CHUNK_ALIGN_BYTES != 0 then size + CHUNK_ALIGN_BYTES - size % CHUNK_ALIGN_BYTES else size
  }

  /** `size *= factor`, with the product truncated to an integer. */
  function ScaledSize(size: nat, factor: real): (r: nat)
    requires factor > 1.0
    ensures r >= size
  {
    Scaled(size, factor);
    (size as real * factor).Floor
  }

  /** The sizing loop of slabs_init. */
  method ClassSizes(factor: real, baseSize: nat) returns (cs: seq<SlabClass>, largest: nat)
    requires factor > 1.0 && baseSize > 0
    ensures |cs| == POWER_LARGEST + 1 && largest <= POWER_LARGEST && SizesOk(cs, largest)
    ensures forall c :: 0 <= c <= POWER_LARGEST ==>
      cs[c] == if POWER_SMALLEST <= c <= largest && cs[c].size > 0 then EmptyClass(cs[c].size) else NO_CLASS
  {
    hide EmptyClass, Aligned, ScaledSize;
    largest := POWER_SMALLEST;
    var size := baseSize;
    if factor == 2.0 && size < 128 { size := 128; }
    cs := seq(POWER_LARGEST + 1, _ => NO_CLASS);
    while largest < POWER_LARGEST && size <= POWER_BLOCK / 2
      invariant POWER_SMALLEST <= largest <= POWER_LARGEST && size > 0 && |cs| == POWER_LARGEST + 1
      invariant forall c :: POWER_SMALLEST <= c < largest ==>
        0 < cs[c].size <= POWER_BLOCK / 2 && cs[c].size % CHUNK_ALIGN_BYTES == 0 && cs[c] == EmptyClass(cs[c].size)
      invariant forall c :: 0 <= c <= POWER_LARGEST && !(POWER_SMALLEST <= c < largest) ==> cs[c] == NO_CLASS
      invariant forall c :: POWER_SMALLEST <= c < largest - 1 ==> cs[c].size <= cs[c + 1].size
      invariant largest > POWER_SMALLEST ==> cs[largest - 1].size <= size
    {
      size := Aligned(size);
      cs := cs[largest := EmptyClass(size)];
      size := ScaledSize(size, factor);
      largest := largest + 1;
    }
    cs := cs[largest := EmptyClass(POWER_BLOCK)];
  }

  lemma EmptyOk(cs: seq<SlabClass>, largest: nat)
    requires |cs| == POWER_LARGEST + 1 && largest <= POWER_LARGEST && SizesOk(cs, largest)
    requires forall c :: 0 <= c <= POWER_LARGEST ==>
      cs[c] == if POWER_SMALLEST <= c <= largest && cs[c].size > 0 then EmptyClass(cs[c].size) else NO_CLASS
    ensures forall c, i :: !IsPage(cs, c, i)
    ensures PagesApart(cs)
    ensures forall c :: POWER_SMALLEST <= c <= largest ==>
      cs[c].size <= POWER_BLOCK && PageBytes(cs[c]) <= POWER_BLOCK && ClassOk(cs[c], {})
  {
    forall c | POWER_SMALLEST <= c <= largest
      ensures cs[c].size <= POWER_BLOCK && PageBytes(cs[c]) <= POWER_BLOCK && ClassOk(cs[c], {})
    {
      DivBound(POWER_BLOCK, cs[c].size);
    }
  }

  class SlabAllocator {
    var classes: seq<SlabClass>
    var memLimit: nat
    var memMalloced: nat
    var powerLargest: nat
    var memBase: Addr
    var memCurrent: Addr
    var memAvail: nat
    /** The chunks of each class that are handed out. */
    ghost var inUse: seq<set<Addr>>

    predicate InRange(id: int)
      reads this
    {
      POWER_SMALLEST <= id <= powerLargest
    }

    ghost predicate Shape()
      reads this
    {
      && |classes| == |inUse| == POWER_LARGEST + 1 && POWER_SMALLEST <= powerLargest <= POWER_LARGEST
      && (forall c :: 0 <= c <= POWER_LARGEST && !InRange(c) ==> inUse[c] == {})
      && (forall c :: InRange(c) ==> classes[c].size <= POWER_BLOCK && PageBytes(classes[c]) <= POWER_BLOCK)
      && classes[powerLargest].size == POWER_BLOCK
    }

    /** Memory use stays within the limit, but for the first page of each class. */
    ghost predicate WithinLimit()
      reads this
    {
      && memMalloced == TotalBytes(classes)
      && (memLimit > 0 ==> memMalloced <= memLimit + FirstPages(classes))
    }

    /** With preallocation, every page lies inside the one region. */
    ghost predicate RegionOk()
      reads this
    {
      memBase != NULL ==>
        && memBase <= memCurrent && InRegion(classes, memBase, memCurrent)
        && (memAvail > 0 ==> memCurrent + memAvail == memBase + memLimit)
        && InRegion(classes, memBase, memBase + memLimit)
    }

    ghost predicate Valid()
      reads this
    {
      && Shape() && PagesApart(classes) && WithinLimit() && RegionOk()
      && forall c :: InRange(c) ==> ClassOk(classes[c], inUse[c])
    }

    /** slabs_init.  `base` is what malloc returned for the preallocated region, or NULL. */
    constructor (limit: nat, factor: real, baseSize: nat, base: Addr)
      requires factor > 1.0 && baseSize > 0
      ensures Valid() && memLimit == limit && memMalloced == 0
      ensures forall c :: 0 <= c <= POWER_LARGEST ==> inUse[c] == {}
      ensures SizesOk(classes, powerLargest)
    {
      var cs, largest := ClassSizes(factor, baseSize);
      EmptySums(cs);
      EmptyOk(cs, largest);
      classes, powerLargest, memLimit, memMalloced := cs, largest, limit, 0;
      memBase, memCurrent, memAvail := base, base, if base == NULL then 0 else limit;
      inUse := seq(POWER_LARGEST + 1, _ => {});
    }

    /** slabs_clsid: the least class whose chunks are big enough, 0 exactly for an empty or over-large size. */
    method ClsId(size: nat) returns (id: nat)
      requires Valid()
      ensures id == 0 <==> size == 0 || size > POWER_BLOCK
      ensures id != 0 ==> InRange(id) && size <= classes[id].size
      ensures forall c :: POWER_SMALLEST <= c < id ==> classes[c].size < size
    {
      id := POWER_SMALLEST;
      if size == 0 { return 0; }
      while size > classes[id].size
        invariant InRange(id)
        invariant forall c :: POWER_SMALLEST <= c < id ==> classes[c].size < size
        decreases powerLargest - id
      {
        if id == powerLargest { return 0; }
        id := id + 1;
      }
      assert classes[id].size <= POWER_BLOCK;
    }

    /** memory_allocate.  `malloced` is what malloc would return. */
    method MemoryAllocate(size: nat, malloced: Addr) returns (ret: Addr)
      requires Valid() && size > 0 && (memBase == NULL ==> malloced != NULL && Unused(classes, malloced, size))
      modifies this`memCurrent, this`memAvail
      ensures ret != NULL ==> Unused(classes, ret, size)
      ensures memBase == NULL ==> ret == malloced && memCurrent == old(memCurrent) && memAvail == old(memAvail)
      ensures ret == NULL <==> memBase != NULL && size > old(memAvail)
      ensures ret == NULL ==> memCurrent == old(memCurrent) && memAvail == old(memAvail)
      ensures memBase != NULL && ret != NULL ==>
        && ret == old(memCurrent) && memCurrent == ret + Aligned(size) && ret + size <= memBase + memLimit
        && memAvail == (if Aligned(size) < old(memAvail) then old(memAvail) - Aligned(size) else 0)
        && (memAvail > 0 ==> memCurrent + memAvail == memBase + memLimit)
    {
      if memBase == NULL {
        ret := malloced;
      } else {
        if size > memAvail { return NULL; }
        ret := memCurrent;
        var n := Aligned(size);
        memCurrent := memCurrent + n;
        memAvail := if n < memAvail then memAvail - n else 0;
      }
    }

    /** No page can be added to the class: the limit is reached and it has one already, or the region is used up. */
    predicate Exhausted(id: nat)
      reads this
      requires id < |classes|
    {
      || (memLimit > 0 && classes[id].slabs > 0 && memMalloced + PageBytes(classes[id]) > memLimit)
      || (memBase != NULL && PageBytes(classes[id]) > memAvail)
    }

    /** do_slabs_newslab, for a class that has nothing free. */
    method NewSlab(id: nat, malloced: Addr) returns (ok: bool)
      requires Valid() && InRange(id) && !HasFree(classes[id])
      requires memBase == NULL ==> malloced != NULL && Unused(classes, malloced, PageBytes(classes[id]))
      modifies this`classes, this`memMalloced, this`memCurrent, this`memAvail
      ensures Valid() && SameSizes(old(classes), classes)
      ensures ok <==> HasFree(classes[id])
      ensures ok <==> !old(Exhausted(id))
      ensures !ok ==> classes == old(classes)
    {
      hide ClassOk, PagesApart, InRegion, TotalBytes, FirstPages, PageBytes, Unused;
      var p := classes[id];
      var len := PageBytes(p);
      PositivePage(p, inUse[id]);
      SlotRoom(p, inUse[id]);
      if memLimit != 0 && memMalloced + len > memLimit && p.slabs > 0 {
        return false;
      }
      var list := if p.slabs == |p.slabList| then Grown(p.slabList) else p.slabList;
      var ptr := MemoryAllocate(len, malloced);
      if ptr == NULL {
        return false;
      }
      AddPage(id, list, ptr, old(memCurrent));
      return true;
    }

    /** The end of do_slabs_newslab: the page at `ptr`, which the region has grown over, belongs to the class. */
    method AddPage(id: nat, list: seq<Addr>, ptr: Addr, ghost low: Addr)
      requires Shape() && PagesApart(classes) && WithinLimit() && InRange(id) && !HasFree(classes[id]) && ptr != NULL
      requires forall c :: InRange(c) ==> ClassOk(classes[c], inUse[c])
      requires classes[id].slabs <= |classes[id].slabList| && classes[id].slabs < |list|
      requires list[..classes[id].slabs] == classes[id].slabList[..classes[id].slabs]
      requires Unused(classes, ptr, PageBytes(classes[id]))
      requires memLimit != 0 ==> memMalloced + PageBytes(classes[id]) <= memLimit || classes[id].slabs == 0
      requires memBase != NULL ==>
        && memBase <= low == ptr && ptr + PageBytes(classes[id]) <= memCurrent
        && ptr + PageBytes(classes[id]) <= memBase + memLimit
        && InRegion(classes, memBase, low) && InRegion(classes, memBase, memBase + memLimit)
        && (memAvail > 0 ==> memCurrent + memAvail == memBase + memLimit)
      modifies this`classes, this`memMalloced
      ensures Valid() && SameSizes(old(classes), classes) && HasFree(classes[id])
    {
      hide ClassOk, PagesApart, InRegion, TotalBytes, FirstPages, PageBytes, Unused;
      var p := classes[id];
      var len := PageBytes(p);
      PositivePage(p, inUse[id]);
      SlotRoom(p, inUse[id]);
      var q := p.(slabList := list[p.slabs := ptr], endPagePtr := ptr, endPageFree := p.perslab, slabs := p.slabs + 1);
      assert q.slabList[..p.slabs] == p.slabList[..p.slabs];
      SamePageBytes(p, q);
      NewPageOk(p, inUse[id], q, ptr);
      AddPageApart(classes, id, q);
      SumsUpdate(classes, id, q);
      OneMore(p.slabs, len);
      if memBase != NULL {
        WidenRegion(classes, memBase, low, memCurrent);
        AddPageInRegion(classes, id, q, memBase, memCurrent);
        AddPageInRegion(classes, id, q, memBase, memBase + memLimit);
      }
      classes := classes[id := q];
      memMalloced := memMalloced + len;
    }

    /** The part of do_slabs_alloc that takes a free chunk: off the free stack, else off the last page. */
    method Take(id: nat) returns (ret: Addr)
      requires Valid() && InRange(id) && HasFree(classes[id])
      modifies this`classes, this`inUse
      ensures Valid() && SameSizes(old(classes), classes)
      ensures ret != NULL && ret !in old(inUse)[id] && inUse == old(inUse)[id := old(inUse)[id] + {ret}]
    {
      hide Shaped;
      hide PagesApart, InRegion, TotalBytes, FirstPages, ClassOk, PageBytes;
      var p := classes[id];
      var q;
      SlotRoom(p, inUse[id]);
      if p.slCurr != 0 {
        PopOk(p, inUse[id]);
        ret := p.slots[p.slCurr - 1];
        q := p.(slCurr := p.slCurr - 1);
      } else {
        EndIsNew(classes, id);
        CarveOk(p, inUse[id]);
        ret := p.endPagePtr;
        q := CarveNext(p);
      }
      SetClass(id, q, inUse[id] + {ret});
    }

    /** A class whose pages stay, with other chunks in use. */
    method SetClass(id: nat, q: SlabClass, ghost held: set<Addr>)
      requires Valid() && InRange(id) && ClassOk(q, held)
      requires q.size == classes[id].size && q.perslab == classes[id].perslab
      requires q.slabs == classes[id].slabs && q.slabList == classes[id].slabList
      modifies this`classes, this`inUse
      ensures Valid() && SamePages(old(classes), classes) && classes[id] == q && inUse == old(inUse)[id := held]
    {
      hide Shaped, PagesApart, InRegion, TotalBytes, FirstPages, ClassOk, PageBytes, Unused;
      SamePageBytes(classes[id], q);
      SamePagesApart(classes, id, q);
      SameRegion(classes, id, q, memBase, memCurrent);
      SameRegion(classes, id, q, memBase, memBase + memLimit);
      SumsUpdate(classes, id, q);
      SameUnused(classes, id, q);
      classes := classes[id := q];
      inUse := inUse[id := held];
    }

    /** do_slabs_alloc.  `malloced` is what malloc would return for a new page. */
    method Alloc(id: nat, malloced: Addr) returns (ret: Addr)
      requires Valid()
      requires memBase == NULL ==> malloced != NULL && Unused(classes, malloced, POWER_BLOCK)
      modifies this`classes, this`memMalloced, this`memCurrent, this`memAvail, this`inUse
      ensures Valid() && SameSizes(old(classes), classes)
      ensures ret == NULL ==> inUse == old(inUse) && classes == old(classes)
      ensures ret != NULL ==> InRange(id) && ret !in old(inUse)[id] && inUse == old(inUse)[id := old(inUse)[id] + {ret}]
      ensures ret == NULL <==> !InRange(id) || (!HasFree(old(classes)[id]) && old(Exhausted(id)))
    {
      hide PagesApart, InRegion, TotalBytes, FirstPages, ClassOk;
      if id < POWER_SMALLEST || id > powerLargest {
        return NULL;
      }
      if !HasFree(classes[id]) {
        UnusedLess(classes, malloced, POWER_BLOCK, PageBytes(classes[id]));
        var ok := NewSlab(id, malloced);
        if !ok { return NULL; }
      }
      ret := Take(id);
    }

    /** do_slabs_free. */
    method Free(ptr: Addr, id: nat)
      requires Valid() && InRange(id) && ptr in inUse[id]
      modifies this`classes, this`inUse
      ensures Valid() && SamePages(old(classes), classes)
      ensures inUse == old(inUse)[id := old(inUse)[id] - {ptr}]
      ensures HasFree(classes[id])
    {
      hide PagesApart, InRegion, TotalBytes, FirstPages, ClassOk, Shaped, PageBytes, Unused;
      var p := classes[id];
      SlotRoom(p, inUse[id]);
      var slots := if p.slCurr == |p.slots| then Grown(p.slots) else p.slots;
      slots := slots[p.slCurr := ptr];
      assert slots[..p.slCurr] == p.slots[..p.slCurr];
      PushFreeOk(p, inUse[id], ptr, slots);
      var q := p.(slots := slots, slCurr := p.slCurr + 1);
      SetClass(id, q, inUse[id] - {ptr});
    }

    /** Chunks in use are told apart by their address alone, and share no byte. */
    lemma InUseApart(c: nat, d: nat, a: Addr, b: Addr)
      requires Valid() && c <= POWER_LARGEST && d <= POWER_LARGEST && a in inUse[c] && b in inUse[d]
      requires (c != d || a != b)
      ensures a != b && Apart(a, classes[c].size, b, classes[d].size)
    {
      ChunksDisjoint(classes, c, d, a, b);
      assert classes[c].size > 0 && classes[d].size > 0;
    }

    /** The counts do_slabs_stats prints: all chunks of a class are in use, free, or not yet carved. */
    lemma ChunkAccounting(c: nat)
      requires Valid() && InRange(c)
      ensures classes[c].slabs * classes[c].perslab == |inUse[c]| + classes[c].slCurr + classes[c].endPageFree
    {}
  }

  ghost predicate SameSizes(classes: seq<SlabClass>, classes': seq<SlabClass>) {
    |classes'| == |classes| && forall c :: 0 <= c < |classes| ==> classes'[c].size == classes[c].size
  }

  /** No page came or went. */
  ghost predicate SamePages(classes: seq<SlabClass>, classes': seq<SlabClass>) {
    SameSizes(classes, classes') && forall a, n :: Unused(classes, a, n) ==> Unused(classes', a, n)
  }

  lemma PositivePage(p: SlabClass, inUse: set<Addr>)
    requires ClassOk(p, inUse)
    ensures PageBytes(p) > 0
  {}

  lemma SlotRoom(p: SlabClass, inUse: set<Addr>)
    requires ClassOk(p, inUse)
    ensures p.slCurr <= |p.slots| && Shaped(p)
    ensures p.endPagePtr != NULL <==> p.endPageFree > 0
  {}

  lemma SameUnused(classes: seq<SlabClass>, id: nat, q: SlabClass)
    requires id < |classes| && q.slabs == classes[id].slabs && q.slabList == classes[id].slabList
    requires PageBytes(q) == PageBytes(classes[id])
    ensures forall a, n :: Unused(classes, a, n) ==> Unused(classes[id := q], a, n)
  {
    var cs := classes[id := q];
    forall c, i | IsPage(cs, c, i)
      ensures IsPage(classes, c, i) && cs[c].slabList[i] == classes[c].slabList[i]
      ensures PageBytes(cs[c]) == PageBytes(classes[c])
    {}
  }

  lemma UnusedLess(classes: seq<SlabClass>, a: Addr, n: nat, m: nat)
    requires m <= n
    ensures Unused(classes, a, n) ==> Unused(classes, a, m)
  {}

  lemma SamePageBytes(p: SlabClass, q: SlabClass)
    requires q.size == p.size && q.perslab == p.perslab
    ensures PageBytes(q) == PageBytes(p)
  {}

  lemma OneMore(n: nat, m: nat)
    ensures (n + 1) * m == n * m + m
  {}

  lemma SameRegion(classes: seq<SlabClass>, id: nat, q: SlabClass, low: Addr, high: Addr)
    requires id < |classes| && q.slabs == classes[id].slabs && q.slabList == classes[id].slabList
    requires PageBytes(q) == PageBytes(classes[id])
    ensures InRegion(classes, low, high) ==> InRegion(classes[id := q], low, high)
  {
    var cs := classes[id := q];
    forall c, i | IsPage(cs, c, i)
      ensures IsPage(classes, c, i) && cs[c].slabList[i] == classes[c].slabList[i]
      ensures PageBytes(cs[c]) == PageBytes(classes[c])
    {}
  }

  lemma WidenRegion(classes: seq<SlabClass>, low: Addr, high: Addr, high': Addr)
    requires InRegion(classes, low, high) && high <= high'
    ensures InRegion(classes, low, high')
  {}

  /** A page inside the region keeps all pages inside it. */
  lemma AddPageInRegion(classes: seq<SlabClass>, id: nat, q: SlabClass, low: Addr, high: Addr)
    requires id < |classes| && InRegion(classes, low, high)
    requires var p := classes[id];
      && PageBytes(q) == PageBytes(p) && q.slabs == p.slabs + 1 <= |q.slabList| && p.slabs <= |p.slabList|
      && q.slabList[..p.slabs] == p.slabList[..p.slabs] && low <= q.slabList[p.slabs]
      && q.slabList[p.slabs] + PageBytes(p) <= high
    ensures InRegion(classes[id := q], low, high)
  {
    var cs, n := classes[id := q], classes[id].slabs;
    forall c, i | IsPage(cs, c, i) ensures low <= cs[c].slabList[i] && cs[c].slabList[i] + PageBytes(cs[c]) <= high {
      if c == id && i < n {
        assert q.slabList[..n][i] == classes[id].slabList[..n][i];
        assert IsPage(classes, id, i);
      } else if c != id {
        assert IsPage(classes, c, i);
      }
    }
  }

  lemma Scaled(size: nat, factor: real)
    requires factor > 1.0
    ensures (size as real * factor).Floor >= size
  {
    assert size as real * factor >= size as real;
  }

  lemma DivBound(n: nat, d: nat)
    requires 0 < d <= n
    ensures n / d > 0 && d * (n / d) <= n
  {
    assert n == d * (n / d) + n % d;
  }
}
