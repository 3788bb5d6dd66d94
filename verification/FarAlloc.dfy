/** The far-memory allocator: bump allocation, per-object counts of freed bytes, and recycling of whole objects. */
module FarAlloc {
  import opened FarWorld
  import opened FarMem
  import opened FarLibc

  const CARM_ALLOC_SIZE_MULTIPLE: nat := 8
  const UINT64: nat := 0x1_0000_0000_0000_0000

  /** enforce_size_constraints, in 64-bit arithmetic. */
  function EnforceSizeConstraints(size: nat): nat {
    if size < CARM_ALLOC_SIZE_MULTIPLE then CARM_ALLOC_SIZE_MULTIPLE
    else
      var rem := size % CARM_ALLOC_SIZE_MULTIPLE;
      if rem != 0 then (size - rem + CARM_ALLOC_SIZE_MULTIPLE) % UINT64 else size
  }

  /** The least positive multiple of 8 that is not below the size, unless the sum overflows. */
  lemma SizeConstraintsMeaning(size: nat)
    requires size < UINT64
    ensures var r := EnforceSizeConstraints(size);
      if size > UINT64 - 8 then r == 0
      else r % 8 == 0 && r >= 8 && r >= size && forall q: nat :: q % 8 == 0 && q >= 8 && q >= size ==> r <= q
  {
    var r := EnforceSizeConstraints(size);
    if 8 <= size <= UINT64 - 8 {
      forall q: nat | q % 8 == 0 && q >= size ensures r <= q {
        assert q == q / 8 * 8 && size == size / 8 * 8 + size % 8;
      }
    }
  }

  // ----- Allocations and freed bytes

  /** allocation_map, free_list_map, aspace_start, and the allocations not yet freed with their sizes. */
  datatype Heap = Heap(allocationMap: map<nat, nat>, freeList: seq<nat>, aspaceStart: nat, live: map<nat, nat>)

  predicate Inside(live: map<nat, nat>, a: nat, x: int) {
    a in live && a <= x < a + live[a]
  }

  ghost predicate Covered(live: map<nat, nat>, x: int) {
    exists a :: Inside(live, a, x)
  }

  /** The offsets in object `i` whose bytes were allocated and are no longer live. */
  ghost function Freed(h: Heap, i: nat): set<nat> {
    set k: nat | k < OBJ_SIZE && Joined(i, k) < h.aspaceStart && !Covered(h.live, Joined(i, k))
  }

  /** The offsets in object `i` that lie in `size` bytes from `a`. */
  function Part(a: nat, size: nat, i: nat): set<nat> {
    set k: nat | k < OBJ_SIZE && a <= Joined(i, k) < a + size
  }

  ghost predicate LiveOk(h: Heap) {
    && CARM_PTR <= h.aspaceStart && h.aspaceStart % CARM_ALLOC_SIZE_MULTIPLE == 0
    && (forall a :: a in h.live ==> CARM_PTR <= a && 0 < h.live[a] && a + h.live[a] <= h.aspaceStart)
    && (forall a :: a in h.live ==> a in h.allocationMap && h.allocationMap[a] == h.live[a])
    && (forall a, b, x :: Inside(h.live, a, x) && Inside(h.live, b, x) ==> a == b)
  }

  ghost predicate CountsOk(h: Heap) {
    |h.freeList| == TOTAL_OBJECTS && forall i :: 0 <= i < |h.freeList| ==> h.freeList[i] <= |Freed(h, i)|
  }

  /** Every index that is not fully freed still owns its object. */
  ghost predicate OwnersOk(h: Heap, w: World) {
    && h.aspaceStart <= CARM_PTR + w.total * OBJ_SIZE
    && forall i :: 0 <= i < w.total && i < |h.freeList| && h.freeList[i] < OBJ_SIZE ==> Usable(w, i)
  }

  ghost predicate HeapOk(h: Heap, w: World) {
    LiveOk(h) && CountsOk(h) && OwnersOk(h, w)
  }

  /** The offsets from `lo` up to `hi`. */
  function Offsets(lo: nat, hi: nat): (r: set<nat>)
    requires lo <= hi
    ensures |r| == hi - lo && forall k :: k in r <==> lo <= k < hi
    decreases hi - lo
  {
    if lo == hi then {} else {lo} + Offsets(lo + 1, hi)
  }

  lemma {:induction false} SubsetSize(a: set<nat>, b: set<nat>)
    requires a <= b
    ensures |a| <= |b|
    ensures |a| == |b| ==> a == b
    decreases a
  {
    if a != {} {
      var x :| x in a;
      SubsetSize(a - {x}, b - {x});
    }
  }

  /** An object has 4096 bytes; when all are counted as freed, none is live and none is still to be allocated. */
  lemma FreedBound(h: Heap, i: nat)
    ensures |Freed(h, i)| <= OBJ_SIZE
    ensures |Freed(h, i)| == OBJ_SIZE ==>
      forall k: nat :: k < OBJ_SIZE ==> Joined(i, k) < h.aspaceStart && !Covered(h.live, Joined(i, k))
  {
    var all := Offsets(0, OBJ_SIZE);
    assert Freed(h, i) <= all by {
      forall k | k in Freed(h, i) ensures k in all {}
    }
    SubsetSize(Freed(h, i), all);
    if Freed(h, i) == all {
      forall k: nat | k < OBJ_SIZE ensures Joined(i, k) < h.aspaceStart && !Covered(h.live, Joined(i, k)) {
        assert k in all;
      }
    }
  }

  /** A live byte belongs to an index that still owns its object. */
  lemma LiveUsable(h: Heap, w: World, a: nat, i: nat, k: nat)
    requires HeapOk(h, w) && WorldOk(w) && Inside(h.live, a, Joined(i, k)) && k < OBJ_SIZE
    ensures i < w.total && h.freeList[i] < OBJ_SIZE && Usable(w, i)
  {
    hide WorldOk, Usable;
    BelowTotal(i, k, w.total);
    WorldBounds(w);
    assert Covered(h.live, Joined(i, k));
    FreedBound(h, i);
  }

  /** So does a byte that is still to be allocated. */
  lemma UnallocatedUsable(h: Heap, w: World, i: nat, k: nat)
    requires HeapOk(h, w) && WorldOk(w) && h.aspaceStart <= Joined(i, k) < CARM_PTR + w.total * OBJ_SIZE && k < OBJ_SIZE
    ensures i < w.total && h.freeList[i] < OBJ_SIZE && Usable(w, i)
  {
    hide WorldOk, Usable;
    BelowTotal(i, k, w.total);
    WorldBounds(w);
    FreedBound(h, i);
  }

  lemma WorldBounds(w: World)
    requires WorldOk(w)
    ensures |w.ptrs| == TOTAL_OBJECTS && w.total <= TOTAL_OBJECTS
  {}

  lemma BelowTotal(i: nat, k: nat, total: nat)
    requires Joined(i, k) < CARM_PTR + total * OBJ_SIZE
    ensures i < total
  {
    assert i * OBJ_SIZE < total * OBJ_SIZE;
  }

  /** The whole of a live allocation is mapped far memory. */
  lemma LiveRegion(h: Heap, m: Mem, a: nat)
    requires HeapOk(h, m.w) && WorldOk(m.w) && a in h.live
    ensures Region(m, a, h.live[a])
  {
    forall x | a <= x < a + h.live[a] ensures Mapped(m, x) {
      var i, k := (x - CARM_PTR) / OBJ_SIZE, (x - CARM_PTR) % OBJ_SIZE;
      assert Joined(i, k) == x;
      LiveUsable(h, m.w, a, i, k);
    }
  }

  /** So is everything from aspace_start to the end of the arena. */
  lemma ArenaRegion(h: Heap, m: Mem, n: nat)
    requires HeapOk(h, m.w) && WorldOk(m.w) && h.aspaceStart + n <= CARM_PTR + m.w.total * OBJ_SIZE
    ensures Region(m, h.aspaceStart, n)
  {
    hide WorldOk, Usable;
    WorldBounds(m.w);
    forall x | h.aspaceStart <= x < h.aspaceStart + n ensures Mapped(m, x) {
      var i, k := (x - CARM_PTR) / OBJ_SIZE, (x - CARM_PTR) % OBJ_SIZE;
      assert Joined(i, k) == x;
      UnallocatedUsable(h, m.w, i, k);
    }
  }

  // ----- carm_remote_malloc

  function Bumped(h: Heap, asize: nat): Heap {
    Heap(h.allocationMap[h.aspaceStart := asize], h.freeList, h.aspaceStart + asize, h.live[h.aspaceStart := asize])
  }

  lemma BumpedFreed(h: Heap, asize: nat, i: nat)
    requires LiveOk(h) && asize > 0
    ensures Freed(Bumped(h, asize), i) == Freed(h, i)
  {
    var h' := Bumped(h, asize);
    forall k: nat | k < OBJ_SIZE ensures k in Freed(h', i) <==> k in Freed(h, i) {
      var x := Joined(i, k);
      forall a
        ensures Inside(h'.live, a, x) <==>
          Inside(h.live, a, x) || (a == h.aspaceStart && h.aspaceStart <= x < h.aspaceStart + asize)
      {
        assert h.aspaceStart !in h.live;
      }
      if Covered(h'.live, x) {
        var a :| Inside(h'.live, a, x);
      }
      if Covered(h.live, x) {
        var a :| Inside(h.live, a, x);
        assert Inside(h'.live, a, x);
      }
      if h.aspaceStart <= x < h.aspaceStart + asize { assert Inside(h'.live, h.aspaceStart, x); }
    }
  }

  lemma BumpedOk(h: Heap, w: World, asize: nat)
    requires HeapOk(h, w) && asize > 0 && asize % CARM_ALLOC_SIZE_MULTIPLE == 0
    requires h.aspaceStart + asize <= CARM_PTR + w.total * OBJ_SIZE
    ensures HeapOk(Bumped(h, asize), w) && h.aspaceStart !in h.live
  {
    var h' := Bumped(h, asize);
    assert LiveOk(h') by {
      forall a, b, x | Inside(h'.live, a, x) && Inside(h'.live, b, x) ensures a == b {
        if a != h.aspaceStart { assert Inside(h.live, a, x); }
        if b != h.aspaceStart { assert Inside(h.live, b, x); }
      }
    }
    hide LiveOk, Freed, Usable;
    forall i | 0 <= i < |h.freeList| ensures h'.freeList[i] <= |Freed(h', i)| { BumpedFreed(h, asize, i); }
  }

  // ----- carm_free

  function Released(h: Heap, a: nat): Heap {
    h.(live := h.live - {a})
  }

  lemma ReleasedFreed(h: Heap, a: nat, i: nat)
    requires LiveOk(h) && a in h.live
    ensures |Freed(h, i)| + |Part(a, h.live[a], i)| <= |Freed(Released(h, a), i)|
  {
    var was, part, now := Freed(h, i), Part(a, h.live[a], i), Freed(Released(h, a), i);
    forall k | k in was + part ensures k in now {
      var x := Joined(i, k);
      if Covered(Released(h, a).live, x) {
        var b :| Inside(Released(h, a).live, b, x);
        assert Inside(h.live, b, x);
        if k in part { assert Inside(h.live, a, x); }
      }
    }
    forall k | k in part ensures k !in was { assert Inside(h.live, a, Joined(i, k)); }
    assert was !! part;
    SubsetSize(was + part, now);
  }

  /** The bytes of the released allocation from object `i` on are freed, and not counted yet. */
  ghost predicate Uncounted(h: Heap, a: nat, size: nat, i: nat) {
    forall j :: i <= j < |h.freeList| ==> h.freeList[j] + |Part(a, size, j)| <= |Freed(h, j)|
  }

  lemma ReleasedOk(h: Heap, w: World, a: nat)
    requires HeapOk(h, w) && a in h.live
    ensures HeapOk(Released(h, a), w) && Uncounted(Released(h, a), a, h.live[a], 0)
  {
    var h' := Released(h, a);
    assert LiveOk(h') by {
      forall b, c, x | Inside(h'.live, b, x) && Inside(h'.live, c, x) ensures b == c {
        assert Inside(h.live, b, x) && Inside(h.live, c, x);
      }
    }
    hide LiveOk, Freed, Usable, Part;
    forall j | 0 <= j < |h.freeList| ensures h.freeList[j] + |Part(a, h.live[a], j)| <= |Freed(h', j)| {
      ReleasedFreed(h, a, j);
    }
  }

  lemma PartSize(a: nat, size: nat, i: nat, off: nat, n: nat)
    requires off + n <= OBJ_SIZE && Joined(i, off) >= a && Joined(i, off) + n <= a + size
    requires Joined(i, off) == a || off == 0
    requires off + n == OBJ_SIZE || Joined(i, off) + n == a + size
    ensures |Part(a, size, i)| == n
  {
    assert Part(a, size, i) == Offsets(off, off + n);
  }

  function Counted(h: Heap, i: nat, n: nat): Heap
    requires i < |h.freeList|
  {
    h.(freeList := h.freeList[i := h.freeList[i] + n])
  }

  /** Counting a chunk never takes an object past its size. */
  lemma CountedOk(h: Heap, w: World, a: nat, size: nat, i: nat, n: nat)
    requires HeapOk(h, w) && Uncounted(h, a, size, i) && i < |h.freeList| && |Part(a, size, i)| == n
    ensures HeapOk(Counted(h, i, n), w) && Uncounted(Counted(h, i, n), a, size, i + 1)
    ensures Counted(h, i, n).freeList[i] <= OBJ_SIZE
    ensures Counted(h, i, n).freeList[i] == OBJ_SIZE ==>
      forall k: nat :: k < OBJ_SIZE ==> Joined(i, k) < h.aspaceStart && !Covered(h.live, Joined(i, k))
  {
    var h' := Counted(h, i, n);
    assert forall j :: Freed(h', j) == Freed(h, j);
    FreedBound(h, i);
    hide Freed, Usable, Part;
  }

  /** What a step leaves alone: the host, and every byte of a live allocation. */
  ghost predicate LiveSame(live: map<nat, nat>, m: Mem, m': Mem) {
    && m'.host == m.host
    && forall a, x :: Inside(live, a, x) ==> Mapped(m', x) == Mapped(m, x) && ByteAt(m', x) == ByteAt(m, x)
  }

  /** Recycling an object none of whose bytes is live or still to be allocated. */
  lemma RecycleOk(h: Heap, m: Mem, i: nat)
    requires HeapOk(h, m.w) && WorldOk(m.w) && i < |h.freeList| && h.freeList[i] == OBJ_SIZE && Usable(m.w, i)
    requires m.w.ptrs[i] != 0
    requires m.w.total < TOTAL_OBJECTS
    ensures m.w.ptrs[i] in m.w.objs
    ensures var m' := m.(w := Recycled(m.w, i));
      WorldOk(m'.w) && HeapOk(h, m'.w) && LiveSame(h.live, m, m')
  {
    hide WorldOk, Usable, FlatPage, Freed;
    RecycledOk(m.w, i);
    FreedBound(h, i);
    WorldBounds(m.w);
    var m' := m.(w := Recycled(m.w, i));
    forall a, x | Inside(h.live, a, x) ensures Mapped(m', x) == Mapped(m, x) && ByteAt(m', x) == ByteAt(m, x) {
      var j, k := (x - CARM_PTR) / OBJ_SIZE, (x - CARM_PTR) % OBJ_SIZE;
      assert Joined(j, k) == x && Covered(h.live, x);
      BelowTotal(j, k, m.w.total);
      assert j != i;
    }
  }

  lemma LiveSameTrans(live: map<nat, nat>, m: Mem, m': Mem, m'': Mem)
    requires LiveSame(live, m, m') && LiveSame(live, m', m'')
    ensures LiveSame(live, m, m'')
  {
    hide Mapped, ByteAt;
  }

  // ----- The heap under the libc routines

  /** Only who owns which index matters to the heap, so it survives every routine that keeps the mapping. */
  lemma StillOk(h: Heap, m: Mem, m': Mem)
    requires HeapOk(h, m.w) && m'.w.total == m.w.total && forall a :: Mapped(m', a) == Mapped(m, a)
    ensures HeapOk(h, m'.w)
  {
    hide Usable, LiveOk, CountsOk;
    forall i | 0 <= i < m'.w.total && i < |h.freeList| && h.freeList[i] < OBJ_SIZE ensures Usable(m'.w, i) {
      assert Mapped(m, Joined(i, 0)) && Mapped(m', Joined(i, 0));
    }
  }

  /** Writes outside every live allocation leave their bytes alone. */
  lemma FilledOutside(h: Heap, m: Mem, m': Mem, c: u8, n: nat)
    requires LiveOk(h) && Filled(m, m', h.aspaceStart, c, n) && m'.host == m.host
    ensures LiveSame(h.live, m, m')
  {
    hide Mapped, ByteAt;
  }

  lemma CopiedOutside(h: Heap, m: Mem, m': Mem, src: nat, n: nat)
    requires LiveOk(h) && Copied(m, m', h.aspaceStart, src, n) && m'.host == m.host
    ensures LiveSame(h.live, m, m')
  {
    hide Mapped, ByteAt;
  }

  /** The index of the last object of an allocation. */
  function LastObject(a: nat, size: nat): nat
    requires CARM_PTR <= a && 0 < size
  {
    (a + size - 1 - CARM_PTR) / OBJ_SIZE
  }

  lemma NotPastLast(a: nat, size: nat, i: nat, off: nat)
    requires CARM_PTR <= a && 0 < size && Joined(i, off) < a + size
    ensures i <= LastObject(a, size)
  {
    assert i * OBJ_SIZE <= a + size - 1 - CARM_PTR;
  }

  class FarHeap {
    const rt: FarRuntime
    var allocationMap: map<nat, nat>
    var freeList: seq<nat>
    var aspaceStart: nat
    ghost var live: map<nat, nat>

    /** init_objects, with free_list_map cleared. */
    constructor (rt: FarRuntime)
      requires rt.Valid() && forall i :: 0 <= i < rt.w.total ==> Usable(rt.w, i)
      ensures this.rt == rt && Valid() && live == map[] && aspaceStart == CARM_PTR && allocationMap == map[]
    {
      this.rt := rt;
      allocationMap := map[];
      freeList := seq(TOTAL_OBJECTS, _ => 0);
      aspaceStart := CARM_PTR;
      live := map[];
      new;
      FreshHeapOk(H(), rt.w);
    }

    ghost function H(): Heap
      reads this
    {
      Heap(allocationMap, freeList, aspaceStart, live)
    }

    ghost predicate Valid()
      reads this, rt
    {
      rt.Valid() && HeapOk(H(), rt.w)
    }

    /** The arena has room for `n` more bytes. */
    predicate Room(n: nat)
      reads this, rt
    {
      aspaceStart + n <= CARM_PTR + rt.w.total * OBJ_SIZE
    }

    /** carm_remote_malloc, with the runtime initialised. */
    method RemoteMalloc(size: nat) returns (ret: nat)
      requires Valid() && size <= UINT64 - 8 && Room(EnforceSizeConstraints(size))
      modifies this
      ensures Valid() && ret == old(aspaceStart) && ret !in old(live) && CARM_PTR <= ret
      ensures ret % CARM_ALLOC_SIZE_MULTIPLE == 0
      ensures H() == Bumped(old(H()), EnforceSizeConstraints(size))
      ensures live[ret] >= size && Region(rt.Now(), ret, live[ret])
    {
      hide WorldOk, HeapOk;
      SizeConstraintsMeaning(size);
      var asize := EnforceSizeConstraints(size);
      BumpedOk(H(), rt.w, asize);
      Aligned(H(), rt.w);
      ret := aspaceStart;
      allocationMap := allocationMap[ret := asize];
      aspaceStart := aspaceStart + asize;
      live := live[ret := asize];
      LiveRegion(H(), rt.Now(), ret);
    }

    /** carm_calloc, with the runtime initialised; the product wraps at 64 bits. */
    method Calloc(elem: nat, elemSize: nat) returns (ret: nat)
      requires Valid() && elem * elemSize % UINT64 <= UINT64 - 8
      requires Room(EnforceSizeConstraints(elem * elemSize % UINT64))
      requires EnforceSizeConstraints(elem * elemSize % UINT64) < UINT32 - OBJ_SIZE
      modifies this, rt
      ensures Valid() && ret == old(aspaceStart) && ret !in old(live)
      ensures H() == Bumped(old(H()), EnforceSizeConstraints(elem * elemSize % UINT64))
      ensures live[ret] >= elem * elemSize % UINT64 && LiveSame(old(live), old(rt.Now()), rt.Now())
      ensures Region(rt.Now(), ret, live[ret]) && forall x :: ret <= x < ret + live[ret] ==> ByteAt(rt.Now(), x) == 0
    {
      hide WorldOk, HeapOk, Mapped, ByteAt, Filled;
      ghost var m, h := rt.Now(), H();
      var size := elem * elemSize % UINT64;
      ret := RemoteMalloc(size);
      rt.CarmMemset(ret, 0, allocationMap[ret]);
      Cleared(h, H(), m, rt.Now(), ret, live[ret]);
    }

    /** update_object_list. */
    method UpdateObjectList(i: nat)
      requires Valid() && i < |freeList| && freeList[i] == OBJ_SIZE && Usable(rt.w, i) && rt.w.ptrs[i] != 0
      requires rt.w.total < TOTAL_OBJECTS
      modifies rt`w
      ensures old(rt.w.total < |rt.w.ptrs| && rt.w.ptrs[i] in rt.w.objs)
      ensures rt.w == Recycled(old(rt.w), i)
      ensures Valid() && LiveSame(live, old(rt.Now()), rt.Now())
    {
      hide WorldOk, HeapOk, LiveSame, Usable;
      WorldBounds(rt.w);
      HeapBounds(H(), rt.w);
      RecycleOk(H(), rt.Now(), i);
      rt.w := Recycled(rt.w, i);
    }

    /** One pass of the loop of carm_free; `more` is false where the loop breaks. */
    method FreeChunk(ghost a: nat, ghost size: nat, i: nat, n: nat) returns (more: bool)
      requires Valid() && i < |freeList| && i < rt.w.total < TOTAL_OBJECTS && |rt.w.ptrs| == TOTAL_OBJECTS
      requires Uncounted(H(), a, size, i) && |Part(a, size, i)| == n > 0
      modifies this`freeList, rt`w
      ensures Valid() && LiveSame(live, old(rt.Now()), rt.Now()) && Uncounted(H(), a, size, i + 1)
      ensures freeList == old(freeList)[i := old(freeList)[i] + n] && freeList[i] <= OBJ_SIZE
      ensures freeList[i] < OBJ_SIZE ==> more && rt.w == old(rt.w)
      ensures freeList[i] == OBJ_SIZE ==> more == (old(rt.w).ptrs[i] != 0)
      ensures freeList[i] == OBJ_SIZE && !more ==> rt.w == old(rt.w)
      ensures freeList[i] == OBJ_SIZE && more ==> old(rt.w).ptrs[i] in old(rt.w).objs && rt.w == Recycled(old(rt.w), i)
      ensures freeList[i] == OBJ_SIZE ==>
        forall k: nat :: k < OBJ_SIZE ==> Joined(i, k) < aspaceStart && !Covered(live, Joined(i, k))
    {
      hide WorldOk, HeapOk, LiveSame, Usable, Uncounted, Part, Covered;
      ChunkUsable(H(), rt.w, a, size, i, n);
      CountedOk(H(), rt.w, a, size, i, n);
      LiveSameRefl(live, rt.Now());
      WorldBounds(rt.w);
      freeList := freeList[i := freeList[i] + n];
      more := true;
      if freeList[i] == OBJ_SIZE {
        if rt.w.ptrs[i] != 0 {
          UpdateObjectList(i);
        } else {
          more := false;
        }
      } else if freeList[i] > OBJ_SIZE {
        assert false;
      }
    }

    /** carm_free of a far address: it never reaches its abort, and no live byte changes. Each object's count grows
        by the bytes it loses, unless an earlier object of the allocation is full and was never created. */
    method CarmFree(addr: nat)
      requires Valid() && addr in live
      requires rt.w.total + LastObject(addr, live[addr]) - (addr - CARM_PTR) / OBJ_SIZE < TOTAL_OBJECTS
      modifies this, rt`w
      ensures Valid() && live == old(live) - {addr} && allocationMap == old(allocationMap)
      ensures aspaceStart == old(aspaceStart)
      ensures LiveSame(live, old(rt.Now()), rt.Now()) && rt.w.total >= old(rt.w.total)
      ensures exists stop: nat ::
        && CountedUpTo(old(freeList), freeList, addr, old(live)[addr], stop)
        && (LastObject(addr, old(live)[addr]) < stop || NeverCreated(freeList, rt.w, stop - 1))
    {
      hide WorldOk, HeapOk, LiveSame, Uncounted, Part, GetCarmPtr, LastObject, CountedUpTo;
      FreeStart(H(), rt.w, addr);
      NothingCounted(freeList, addr, live[addr]);
      var p := GetCarmPtr(addr, false);
      var size := allocationMap[addr];
      live := live - {addr};
      LiveSameRefl(live, rt.Now());
      var freedSize, chunkSize, i := 0, OBJ_SIZE - p.offset, p.objIndex;
      while freedSize < size
        invariant Valid() && 0 < chunkSize <= OBJ_SIZE && H() == old(Released(H(), addr)).(freeList := freeList)
        invariant Uncounted(H(), addr, size, i) && LiveSame(live, old(rt.Now()), rt.Now())
        invariant rt.w.total >= old(rt.w.total)
        invariant freedSize < size ==> Joined(i, OBJ_SIZE - chunkSize) == addr + freedSize
        invariant freedSize == 0 || chunkSize == OBJ_SIZE
        invariant CountedUpTo(old(freeList), freeList, addr, size, i)
        invariant freedSize >= size ==> LastObject(addr, size) < i
        invariant freedSize < size ==> rt.w.total + LastObject(addr, size) - i < TOTAL_OBJECTS
        decreases size - freedSize
      {
        var n := if freedSize + chunkSize < size then chunkSize else size - freedSize;
        ghost var before, counts := rt.Now(), freeList;
        WorldBounds(rt.w);
        ChunkBounds(H(), rt.w, addr, size, i, OBJ_SIZE - chunkSize, n);
        var more := FreeChunk(addr, size, i, n);
        LiveSameTrans(live, old(rt.Now()), before, rt.Now());
        CountedOne(old(freeList), counts, freeList, addr, size, i);
        if !more {
          break;
        }
        freedSize := freedSize + chunkSize;
        chunkSize := OBJ_SIZE;
        i := i + 1;
      }
    }

    /** carm_realloc of a far address. It copies as many bytes as the old allocation has, which may run past
        the new one, but only into bytes that are not allocated yet. */
    method Realloc(ptr: nat, size: nat) returns (ret: nat)
      requires Valid() && ptr in live && size <= UINT64 - 8 && live[ptr] < UINT32 - OBJ_SIZE
      requires Room(EnforceSizeConstraints(size)) && Room(live[ptr])
      requires rt.w.total + LastObject(ptr, live[ptr]) - (ptr - CARM_PTR) / OBJ_SIZE < TOTAL_OBJECTS
      modifies this, rt
      ensures Valid() && LiveSame(old(live) - {ptr}, old(rt.Now()), rt.Now())
      ensures size == 0 ==> ret == 0 && live == old(live) - {ptr}
      ensures size > 0 ==>
        ret == old(aspaceStart) && ret !in old(live) && live == (old(live) - {ptr})[ret := EnforceSizeConstraints(size)]
      ensures size > 0 ==> size <= live[ret] && Region(rt.Now(), ret, live[ret])
      ensures size > 0 ==>
        Moved(old(rt.Now()), rt.Now(), ptr, ret, if old(live)[ptr] < size then old(live)[ptr] else size)
    {
      hide WorldOk, HeapOk, LiveSame, Mapped, ByteAt, Region, Copied, LastObject, EnforceSizeConstraints, Moved;
      if size == 0 {
        CarmFree(ptr);
        return 0;
      }
      ghost var h, m := H(), rt.Now();
      ReallocStart(h, m, ptr);
      ret := RemoteMalloc(size);
      rt.CarmMemcpy(ret, ptr, allocationMap[ptr]);
      ghost var m' := rt.Now();
      CopyKeepsHeap(H(), m, m', ret, ptr, h.live[ptr]);
      CarmFree(ptr);
      assert live == (h.live - {ptr})[ret := live[ret]];
      ReallocMeaning(h, m, m', rt.Now(), ptr, ret, live[ret]);
      MovedLess(m, rt.Now(), ptr, ret, if h.live[ptr] < live[ret] then h.live[ptr] else live[ret],
        if h.live[ptr] < size then h.live[ptr] else size);
      LiveRegion(H(), rt.Now(), ret);
    }
  }

  /** The counts of the objects below `stop` include the bytes of the allocation, and no others changed. */
  ghost predicate CountedUpTo(was: seq<nat>, now: seq<nat>, a: nat, size: nat, stop: nat) {
    |now| == |was| && forall j :: 0 <= j < |was| ==> now[j] == was[j] + if j < stop then |Part(a, size, j)| else 0
  }

  lemma NothingCounted(was: seq<nat>, a: nat, size: nat)
    requires CARM_PTR <= a
    ensures CountedUpTo(was, was, a, size, (a - CARM_PTR) / OBJ_SIZE)
  {
    forall j | 0 <= j < (a - CARM_PTR) / OBJ_SIZE ensures Part(a, size, j) == {} {
      assert (j + 1) * OBJ_SIZE <= (a - CARM_PTR) / OBJ_SIZE * OBJ_SIZE;
    }
  }

  lemma CountedOne(was: seq<nat>, mid: seq<nat>, now: seq<nat>, a: nat, size: nat, i: nat)
    requires CountedUpTo(was, mid, a, size, i) && i < |mid| && now == mid[i := mid[i] + |Part(a, size, i)|]
    ensures CountedUpTo(was, now, a, size, i + 1)
  {
    hide Part;
  }

  ghost predicate NeverCreated(freeList: seq<nat>, w: World, i: int) {
    0 <= i < |freeList| && i < |w.ptrs| && freeList[i] == OBJ_SIZE && w.ptrs[i] == 0
  }

  /** Indices that are not fully freed never share an object. */
  lemma OwnersDistinct(h: Heap, w: World, i: nat, j: nat)
    requires HeapOk(h, w) && WorldOk(w) && i != j && i < w.total && j < w.total
    requires h.freeList[i] < OBJ_SIZE && h.freeList[j] < OBJ_SIZE
    ensures w.ptrs[i] == 0 || w.ptrs[i] != w.ptrs[j]
  {
    assert Usable(w, i) && Usable(w, j);
  }

  lemma FreshHeapOk(h: Heap, w: World)
    requires WorldOk(w) && h == Heap(map[], seq(TOTAL_OBJECTS, _ => 0), CARM_PTR, map[])
    requires forall i :: 0 <= i < w.total ==> Usable(w, i)
    ensures HeapOk(h, w)
  {}

  lemma Aligned(h: Heap, w: World)
    requires HeapOk(h, w)
    ensures CARM_PTR <= h.aspaceStart && h.aspaceStart % CARM_ALLOC_SIZE_MULTIPLE == 0
  {}

  lemma HeapBounds(h: Heap, w: World)
    requires HeapOk(h, w)
    ensures |h.freeList| == TOTAL_OBJECTS
  {}

  lemma LiveSameRefl(live: map<nat, nat>, m: Mem)
    ensures LiveSame(live, m, m)
  {}

  /** After malloc and memset. */
  lemma Cleared(h: Heap, h': Heap, m: Mem, m': Mem, a: nat, asize: nat)
    requires HeapOk(h, m.w) && a == h.aspaceStart && h' == Bumped(h, asize) && HeapOk(h', m.w)
    requires Filled(m, m', a, 0, asize) && m'.host == m.host && Region(m, a, asize)
    ensures HeapOk(h', m'.w) && LiveSame(h.live, m, m') && Region(m', a, asize)
    ensures forall x :: a <= x < a + asize ==> ByteAt(m', x) == 0
  {
    hide Mapped, ByteAt, LiveOk, CountsOk, OwnersOk;
    StillOk(h', m, m');
    FilledOutside(h, m, m', 0, asize);
  }

  /** An object with bytes still to be counted owns its object. */
  lemma ChunkUsable(h: Heap, w: World, a: nat, size: nat, i: nat, n: nat)
    requires HeapOk(h, w) && Uncounted(h, a, size, i) && i < |h.freeList| && i < w.total && |Part(a, size, i)| == n > 0
    ensures Usable(w, i) && h.freeList[i] + n <= OBJ_SIZE
  {
    hide Usable, Freed, Part;
    FreedBound(h, i);
  }

  lemma FreeStart(h: Heap, w: World, a: nat)
    requires HeapOk(h, w) && WorldOk(w) && a in h.live
    ensures a in h.allocationMap && h.allocationMap[a] == h.live[a] > 0 && CARM_PTR <= a
    ensures HeapOk(Released(h, a), w) && Uncounted(Released(h, a), a, h.live[a], (a - CARM_PTR) / OBJ_SIZE)
    ensures var p := GetCarmPtr(a, false);
      p.offset < OBJ_SIZE && Joined(p.objIndex, p.offset) == a && p.objIndex == (a - CARM_PTR) / OBJ_SIZE
    ensures a + h.live[a] <= h.aspaceStart
  {
    ReleasedOk(h, w, a);
    WorldBounds(w);
    SplitRoundTrip(a, false);
    assert Joined((a - CARM_PTR) / OBJ_SIZE, (a - CARM_PTR) % OBJ_SIZE) == a;
  }

  lemma ChunkBounds(h: Heap, w: World, a: nat, size: nat, i: nat, off: nat, n: nat)
    requires HeapOk(h, w) && WorldOk(w) && a + size <= h.aspaceStart && CARM_PTR <= a && 0 < size
    requires off + n <= OBJ_SIZE && a <= Joined(i, off) && Joined(i, off) + n <= a + size && 0 < n
    requires Joined(i, off) == a || off == 0
    requires off + n == OBJ_SIZE || Joined(i, off) + n == a + size
    ensures i < w.total && i < |h.freeList| && |Part(a, size, i)| == n && i <= LastObject(a, size)
    ensures Joined(i, off) + n == a + size ==> i == LastObject(a, size)
  {
    hide Freed, Usable, Part;
    assert LastObject(a, size) * OBJ_SIZE <= a + size - 1 - CARM_PTR;
    BelowTotal(i, off, w.total);
    WorldBounds(w);
    PartSize(a, size, i, off, n);
    NotPastLast(a, size, i, off);
  }

  /** The `n` bytes that were at `src` are now at `dst`. */
  ghost predicate Moved(m: Mem, m': Mem, src: int, dst: int, n: int) {
    forall x :: dst <= x < dst + n ==> ByteAt(m', x) == ByteAt(m, src + (x - dst))
  }

  lemma MovedLess(m: Mem, m': Mem, src: int, dst: int, n: int, k: int)
    requires Moved(m, m', src, dst, n) && k <= n
    ensures Moved(m, m', src, dst, k)
  {}

  lemma ReallocStart(h: Heap, m: Mem, ptr: nat)
    requires HeapOk(h, m.w) && WorldOk(m.w) && ptr in h.live
    requires h.aspaceStart + h.live[ptr] <= CARM_PTR + m.w.total * OBJ_SIZE
    ensures CARM_PTR <= ptr && ptr + h.live[ptr] <= h.aspaceStart && h.live[ptr] > 0
    ensures ptr in h.allocationMap && h.allocationMap[ptr] == h.live[ptr] && ptr != h.aspaceStart
    ensures h.aspaceStart !in h.live
    ensures Region(m, ptr, h.live[ptr]) && Region(m, h.aspaceStart, h.live[ptr])
  {
    hide WorldOk, Mapped, CountsOk, OwnersOk;
    LiveRegion(h, m, ptr);
    ArenaRegion(h, m, h.live[ptr]);
  }

  lemma CopyKeepsHeap(h: Heap, m: Mem, m': Mem, dst: nat, src: nat, n: nat)
    requires HeapOk(h, m.w) && Copied(m, m', dst, src, n)
    ensures HeapOk(h, m'.w) && m'.w.total == m.w.total
  {
    hide HeapOk, Mapped;
    StillOk(h, m, m');
  }

  lemma ReallocMeaning(h: Heap, m: Mem, m': Mem, m'': Mem, ptr: nat, ret: nat, asize: nat)
    requires HeapOk(h, m.w) && ptr in h.live && ret == h.aspaceStart && m'.host == m.host
    requires Copied(m, m', ret, ptr, h.live[ptr]) && LiveSame((h.live - {ptr})[ret := asize], m', m'')
    ensures LiveSame(h.live - {ptr}, m, m'')
    ensures Moved(m, m'', ptr, ret, if h.live[ptr] < asize then h.live[ptr] else asize)
  {
    hide Mapped, ByteAt, CountsOk, OwnersOk;
    var live := (h.live - {ptr})[ret := asize];
    CopiedOutside(h, m, m', ptr, h.live[ptr]);
    forall a, x | Inside(h.live - {ptr}, a, x)
      ensures Mapped(m'', x) == Mapped(m, x) && ByteAt(m'', x) == ByteAt(m, x)
    {
      assert Inside(h.live, a, x) && Inside(live, a, x);
    }
    forall x | ret <= x < ret + asize && x < ret + h.live[ptr] ensures ByteAt(m'', x) == ByteAt(m, ptr + (x - ret)) {
      assert Inside(live, ret, x);
    }
  }
}
