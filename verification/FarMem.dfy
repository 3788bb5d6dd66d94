/** One address space over host memory and far objects, and the flat-memory meaning of the libc routines. */
module FarMem {
  import opened FarWorld

  /** Bit 60 tells a far address from a host address. */
  const CARM_PTR: nat := 0x1000_0000_0000_0000

  /** check_carm_object. */
  predicate CheckCarmObject(addr: nat) {
    addr / CARM_PTR % 2 == 1
  }

  /** struct Carm_Ptr. */
  datatype CarmPtr = CarmPtr(addr: nat, offset: nat, objIndex: nat, mut: bool, isCarmPtr: bool)

  /** get_carm_ptr: clearing bit 60 and splitting the rest into object index and offset. */
  function GetCarmPtr(addr: nat, mut: bool): CarmPtr {
    if !CheckCarmObject(addr) then CarmPtr(0, 0, 0, false, false)
    else CarmPtr(addr - CARM_PTR, (addr - CARM_PTR) % OBJ_SIZE, (addr - CARM_PTR) / OBJ_SIZE, mut, true)
  }

  /** The address of an offset in an object. */
  function Joined(objIndex: nat, offset: nat): nat {
    CARM_PTR + objIndex * OBJ_SIZE + offset
  }

  /** The split loses nothing: the pointer can be put together again, and no other split gives it. */
  lemma SplitRoundTrip(addr: nat, mut: bool)
    requires CARM_PTR <= addr < 2 * CARM_PTR
    ensures var p := GetCarmPtr(addr, mut);
      p.isCarmPtr && p.mut == mut && p.offset < OBJ_SIZE && Joined(p.objIndex, p.offset) == addr
    ensures forall i: nat, k: nat :: k < OBJ_SIZE && Joined(i, k) == addr ==>
      i == GetCarmPtr(addr, mut).objIndex && k == GetCarmPtr(addr, mut).offset
  {
    assert addr / CARM_PTR == 1;
  }

  lemma SplitAt(addr: nat, mut: bool)
    requires CARM_PTR <= addr < 2 * CARM_PTR
    ensures var p := GetCarmPtr(addr, mut); p.mut == mut && p.offset < OBJ_SIZE && Joined(p.objIndex, p.offset) == addr
  {
    SplitRoundTrip(addr, mut);
  }

  lemma HostAddress(addr: nat)
    requires addr < CARM_PTR
    ensures !CheckCarmObject(addr)
  {
    assert addr / CARM_PTR == 0;
  }

  // ----- Memory by address

  datatype Mem = Mem(w: World, host: map<nat, u8>)

  predicate Mapped(m: Mem, a: int) {
    0 <= a && if a < CARM_PTR then a in m.host else Usable(m.w, (a - CARM_PTR) / OBJ_SIZE)
  }

  function ByteAt(m: Mem, a: int): u8 {
    if !Mapped(m, a) then 0
    else if a < CARM_PTR then m.host[a]
    else
      var page := FlatPage(m.w, (a - CARM_PTR) / OBJ_SIZE);
      if (a - CARM_PTR) % OBJ_SIZE < |page| then page[(a - CARM_PTR) % OBJ_SIZE] else 0
  }

  /** `n` bytes from `addr` are mapped, all of them host bytes or all of them far bytes. */
  ghost predicate Region(m: Mem, addr: int, n: int) {
    && 0 <= addr && (addr + n <= CARM_PTR || (CARM_PTR <= addr < 2 * CARM_PTR && addr + n <= 2 * CARM_PTR))
    && forall a :: addr <= a < addr + n ==> Mapped(m, a)
  }

  ghost predicate SameMemory(m: Mem, m': Mem) {
    m'.w.total == m.w.total && forall a :: Mapped(m', a) == Mapped(m, a) && ByteAt(m', a) == ByteAt(m, a)
  }

  /** `data` is what memory holds from `a` on. */
  ghost predicate Shows(m: Mem, a: int, data: seq<u8>) {
    forall j :: 0 <= j < |data| ==> data[j] == ByteAt(m, a + j)
  }

  /** Exactly the bytes from `d` on become `data`. */
  ghost predicate WroteAt(m: Mem, m': Mem, d: int, data: seq<u8>) {
    && m'.w.total == m.w.total
    && forall a ::
      && Mapped(m', a) == Mapped(m, a)
      && ByteAt(m', a) == if d <= a < d + |data| then data[a - d] else ByteAt(m, a)
  }

  lemma InvisibleSame(m: Mem, m': Mem)
    requires Invisible(m.w, m'.w) && m'.host == m.host
    ensures SameMemory(m, m')
  {}

  lemma PageByte(m: Mem, i: nat, k: nat)
    requires k < OBJ_SIZE && Usable(m.w, i) && |FlatPage(m.w, i)| == OBJ_SIZE
    ensures Mapped(m, Joined(i, k)) && ByteAt(m, Joined(i, k)) == FlatPage(m.w, i)[k]
  {
    assert (i * OBJ_SIZE + k) / OBJ_SIZE == i && (i * OBJ_SIZE + k) % OBJ_SIZE == k;
  }

  /** Reading local memory at a guarded address reads the flat bytes. */
  lemma LoadMeaning(m: Mem, i: nat, base: nat, mut: bool, off: nat, n: nat)
    requires WorldOk(m.w) && Resident(m.w, i, base, mut) && off + n <= OBJ_SIZE
    ensures base in m.w.local && |m.w.local[base]| == OBJ_SIZE
    ensures Shows(m, Joined(i, off), m.w.local[base][off..off + n])
  {
    ResidentPage(m.w, i, base, mut);
    var data := m.w.local[base][off..off + n];
    forall j | 0 <= j < |data| ensures data[j] == ByteAt(m, Joined(i, off) + j) {
      PageByte(m, i, off + j);
    }
  }

  /** Writing local memory through a write guard writes the flat bytes. */
  lemma StoreMeaning(m: Mem, i: nat, base: nat, off: nat, data: seq<u8>)
    requires WorldOk(m.w) && Resident(m.w, i, base, true) && off + |data| <= OBJ_SIZE
    ensures base in m.w.local && |m.w.local[base]| == OBJ_SIZE
    ensures WorldOk(Stored(m.w, base, off, data)) && Resident(Stored(m.w, base, off, data), i, base, true)
    ensures WroteAt(m, m.(w := Stored(m.w, base, off, data)), Joined(i, off), data)
  {
    hide FlatPage, Usable;
    StoredOk(m.w, i, base, off, data);
    var m' := m.(w := Stored(m.w, base, off, data));
    var d := Joined(i, off);
    forall a
      ensures Mapped(m', a) == Mapped(m, a)
      ensures ByteAt(m', a) == if d <= a < d + |data| then data[a - d] else ByteAt(m, a)
    {
      StoreByte(m, m', i, off, data, a);
    }
  }

  lemma StoreByte(m: Mem, m': Mem, i: nat, off: nat, data: seq<u8>, a: int)
    requires m'.host == m.host && off + |data| <= OBJ_SIZE == |FlatPage(m.w, i)|
    requires forall j :: Usable(m'.w, j) == Usable(m.w, j)
    requires FlatPage(m'.w, i) == Spliced(FlatPage(m.w, i), off, data) && Usable(m.w, i)
    requires forall j :: j != i ==> FlatPage(m'.w, j) == FlatPage(m.w, j)
    ensures var d := Joined(i, off);
      Mapped(m', a) == Mapped(m, a) && ByteAt(m', a) == if d <= a < d + |data| then data[a - d] else ByteAt(m, a)
  {
    hide FlatPage, Usable;
    if a >= CARM_PTR {
      var q, r := (a - CARM_PTR) / OBJ_SIZE, (a - CARM_PTR) % OBJ_SIZE;
      assert a == CARM_PTR + q * OBJ_SIZE + r;
      if q < i { assert (q + 1) * OBJ_SIZE <= i * OBJ_SIZE; }
      if q > i { assert (i + 1) * OBJ_SIZE <= q * OBJ_SIZE; }
    }
  }

  // ----- What the routines mean on flat memory

  /** memcpy. */
  ghost predicate Copied(m: Mem, m': Mem, dst: int, src: int, n: int) {
    && m'.w.total == m.w.total
    && forall a ::
      && Mapped(m', a) == Mapped(m, a)
      && ByteAt(m', a) == ByteAt(m, if dst <= a < dst + n then src + (a - dst) else a)
  }

  /** memset. */
  ghost predicate Filled(m: Mem, m': Mem, dst: int, c: u8, n: int) {
    && m'.w.total == m.w.total
    && forall a :: Mapped(m', a) == Mapped(m, a) && ByteAt(m', a) == if dst <= a < dst + n then c else ByteAt(m, a)
  }

  /** memcmp: the difference of the first bytes that differ. */
  function Compare(m: Mem, dst: int, src: int, n: nat): int
    decreases n
  {
    if n == 0 then 0
    else if ByteAt(m, dst) != ByteAt(m, src) then ByteAt(m, dst) as int - ByteAt(m, src) as int
    else Compare(m, dst + 1, src + 1, n - 1)
  }

  /** strcmp on strings that end within `n` bytes. */
  function StrCompare(m: Mem, dst: int, src: int, n: nat): int
    decreases n
  {
    if n == 0 then 0
    else if ByteAt(m, dst) != ByteAt(m, src) then ByteAt(m, dst) as int - ByteAt(m, src) as int
    else if ByteAt(m, src) == 0 then 0
    else StrCompare(m, dst + 1, src + 1, n - 1)
  }

  /** A string of `len` bytes starts at `s`. */
  ghost predicate StringAt(m: Mem, s: int, len: int) {
    0 <= len && ByteAt(m, s + len) == 0 && forall j :: s <= j < s + len ==> ByteAt(m, j) != 0
  }

  lemma SameTrans(m: Mem, m': Mem, m'': Mem)
    requires SameMemory(m, m') && SameMemory(m', m'')
    ensures SameMemory(m, m'')
  {}

  lemma CopiedThenSame(m: Mem, m': Mem, m'': Mem, dst: int, src: int, n: int)
    requires Copied(m, m', dst, src, n) && SameMemory(m', m'')
    ensures Copied(m, m'', dst, src, n)
  {}

  /** Copying one more chunk: what it reads has not been overwritten by the chunks before. */
  lemma CopyStep(m: Mem, m': Mem, m'': Mem, dst: int, src: int, k: int, data: seq<u8>)
    requires Copied(m, m', dst, src, k) && WroteAt(m', m'', dst + k, data) && 0 <= k
    requires Shows(m', src + k, data)
    requires dst <= src || src + k + |data| <= dst
    ensures Copied(m, m'', dst, src, k + |data|)
  {
    hide Mapped, ByteAt;
    forall a
      ensures Mapped(m'', a) == Mapped(m, a)
      ensures ByteAt(m'', a) == ByteAt(m, if dst <= a < dst + k + |data| then src + (a - dst) else a)
    {
      if dst + k <= a < dst + k + |data| {
        var j := a - (dst + k);
        assert data[j] == ByteAt(m', src + k + j) == ByteAt(m, src + k + j);
      }
    }
  }

  lemma FilledThenSame(m: Mem, m': Mem, m'': Mem, dst: int, c: u8, n: int)
    requires Filled(m, m', dst, c, n) && SameMemory(m', m'')
    ensures Filled(m, m'', dst, c, n)
  {}

  lemma FillStep(m: Mem, m': Mem, m'': Mem, dst: int, c: u8, k: int, n: nat)
    requires Filled(m, m', dst, c, k) && WroteAt(m', m'', dst + k, seq(n, _ => c)) && 0 <= k
    ensures Filled(m, m'', dst, c, k + n)
  {}

  lemma {:induction false} CompareFrame(m: Mem, m': Mem, dst: int, src: int, n: nat)
    requires SameMemory(m, m')
    ensures Compare(m', dst, src, n) == Compare(m, dst, src, n)
    decreases n
  {
    if n > 0 { CompareFrame(m, m', dst + 1, src + 1, n - 1); }
  }

  /** Comparing in two parts. */
  lemma {:induction false} CompareSplit(m: Mem, dst: int, src: int, k: nat, n: nat)
    ensures Compare(m, dst, src, k + n) ==
      if Compare(m, dst, src, k) != 0 then Compare(m, dst, src, k) else Compare(m, dst + k, src + k, n)
    decreases k
  {
    if k > 0 {
      CompareSplit(m, dst + 1, src + 1, k - 1, n);
    }
  }

  /** Comparing strlen(src) + 1 bytes decides the order of the strings. */
  lemma {:induction false} CompareIsStrCompare(m: Mem, dst: int, src: int, len: nat)
    requires StringAt(m, src, len)
    ensures Compare(m, dst, src, len + 1) == StrCompare(m, dst, src, len + 1)
    decreases len
  {
    if ByteAt(m, dst) == ByteAt(m, src) && len > 0 {
      CompareIsStrCompare(m, dst + 1, src + 1, len - 1);
    }
  }

  /** Two byte sequences that agree with memory compare like memory. */
  function CompareBytes(x: seq<u8>, y: seq<u8>): int
    requires |x| == |y|
  {
    if x == [] then 0 else if x[0] != y[0] then x[0] as int - y[0] as int else CompareBytes(x[1..], y[1..])
  }

  lemma ShowsRest(m: Mem, a: int, x: seq<u8>)
    requires Shows(m, a, x) && x != []
    ensures Shows(m, a + 1, x[1..])
  {
    forall j | 0 <= j < |x| - 1 ensures x[1..][j] == ByteAt(m, a + 1 + j) {
      assert x[1 + j] == ByteAt(m, a + (1 + j));
    }
  }

  lemma {:induction false} CompareBytesMeaning(m: Mem, dst: int, src: int, x: seq<u8>, y: seq<u8>)
    requires |x| == |y|
    requires Shows(m, dst, x) && Shows(m, src, y)
    ensures CompareBytes(x, y) == Compare(m, dst, src, |x|)
    decreases |x|
  {
    if x != [] {
      assert x[0] == ByteAt(m, dst + 0) && y[0] == ByteAt(m, src + 0);
      ShowsRest(m, dst, x);
      ShowsRest(m, src, y);
      CompareBytesMeaning(m, dst + 1, src + 1, x[1..], y[1..]);
    }
  }
}
