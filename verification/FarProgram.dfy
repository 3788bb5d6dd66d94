/** Programs on far memory: allocation, libc routines, guarded reads and writes and evacuations, in any order, against a
    flat memory in which every byte of a live allocation simply has a value. */
module FarProgram {
  import opened Basics
  import opened FarWorld
  import opened FarMem
  import opened FarLibc
  import opened FarAlloc

  datatype Op =
    | Malloc(size: nat)
    | Calloc(elem: nat, elemSize: nat)
    | Free(a: nat)
    | Realloc(a: nat, size: nat)
    | Memset(d: nat, c: int, n: nat)
    | Memcpy(d: nat, s: nat, n: nat)
    | Memcmp(d: nat, s: nat, n: nat)
    | Strlen(s: nat)
    | Strcpy(d: nat, s: nat)
    | Strcmp(d: nat, s: nat)
    | Read(a: nat, n: nat)
    | Write(a: nat, data: seq<u8>)
    | Evacuate(id: nat, word: nat)

  datatype Value = Nothing | Address(a: nat) | Number(n: int) | Bytes(data: seq<u8>)

  // ----- Flat memory

  /** `host` are the addresses of ordinary memory. */
  datatype Flat = Flat(live: map<nat, nat>, host: iset<int>, bytes: int -> u8)

  ghost predicate Seen(f: Flat, x: int) { x in f.host || Covered(f.live, x) }

  /** Every byte the program may look at is as before. */
  ghost predicate Unchanged(f: Flat, f': Flat) {
    f'.live == f.live && f'.host == f.host && forall x :: Seen(f, x) ==> f'.bytes(x) == f.bytes(x)
  }

  /** The `n` bytes from `d` on are given by `value`, and no others change. */
  ghost predicate Updated(f: Flat, f': Flat, d: int, n: int, value: int -> u8) {
    && f'.live == f.live && f'.host == f.host
    && forall x :: Seen(f, x) ==> f'.bytes(x) == if d <= x < d + n then value(x - d) else f.bytes(x)
  }

  /** A block of at least `size` bytes appears where the program could see nothing. */
  ghost predicate Grown(live: map<nat, nat>, f: Flat, f': Flat, a: nat, size: nat) {
    && f'.host == f.host && a !in f.live && a in f'.live && f'.live == live[a := f'.live[a]] && f'.live[a] >= size
    && (forall x :: a <= x < a + f'.live[a] ==> !Seen(f, x))
    && (forall x :: x in f.host || Covered(live, x) ==> f'.bytes(x) == f.bytes(x))
  }

  /** The block at `a` is gone. */
  ghost predicate Shrunk(f: Flat, f': Flat, a: nat) {
    f'.live == f.live - {a} && f'.host == f.host && forall x :: Seen(f', x) ==> f'.bytes(x) == f.bytes(x)
  }

  ghost predicate StringIn(bytes: int -> u8, s: int, len: nat) {
    bytes(s + len) == 0 && forall j :: s <= j < s + len ==> bytes(j) != 0
  }

  function FlatCompare(bytes: int -> u8, d: int, s: int, n: nat): int
    decreases n
  {
    if n == 0 then 0
    else if bytes(d) != bytes(s) then bytes(d) as int - bytes(s) as int
    else FlatCompare(bytes, d + 1, s + 1, n - 1)
  }

  /** strcmp: the first difference, unless both strings have ended before it. */
  function FlatStrcmp(bytes: int -> u8, d: int, s: int, n: nat): int
    decreases n
  {
    if n == 0 then 0
    else if bytes(d) != bytes(s) then bytes(d) as int - bytes(s) as int
    else if bytes(s) == 0 then 0
    else FlatStrcmp(bytes, d + 1, s + 1, n - 1)
  }

  /** What the operations mean on flat memory. Evacuations mean nothing. */
  ghost predicate FlatNext(f: Flat, op: Op, v: Value, f': Flat) {
    match op
    case Malloc(size) => v.Address? && Grown(f.live, f, f', v.a, size)
    case Calloc(elem, elemSize) =>
      && v.Address? && Grown(f.live, f, f', v.a, elem * elemSize % UINT64)
      && forall x :: v.a <= x < v.a + f'.live[v.a] ==> f'.bytes(x) == 0
    case Free(a) => Shrunk(f, f', a)
    case Realloc(a, size) =>
      if size == 0 then v == Address(0) && Shrunk(f, f', a)
      else
        && v.Address? && a in f.live && Grown(f.live - {a}, f, f', v.a, size)
        && forall x :: v.a <= x < v.a + Least(f.live[a], size) ==> f'.bytes(x) == f.bytes(a + (x - v.a))
    case Memset(d, c, n) => v == Nothing && Updated(f, f', d, n, j => (c % 256) as u8)
    case Memcpy(d, s, n) => v == Nothing && Updated(f, f', d, n, j => f.bytes(s + j))
    case Memcmp(d, s, n) => v == Number(FlatCompare(f.bytes, d, s, n)) && Unchanged(f, f')
    case Strlen(s) => v.Number? && v.n >= 0 && StringIn(f.bytes, s, v.n) && Unchanged(f, f')
    case Strcpy(d, s) =>
      v == Nothing && exists len: nat :: StringIn(f.bytes, s, len) && Updated(f, f', d, len + 1, j => f.bytes(s + j))
    case Strcmp(d, s) =>
      && Unchanged(f, f')
      && exists len: nat :: StringIn(f.bytes, s, len) && v == Number(FlatStrcmp(f.bytes, d, s, len + 1))
    case Read(a, n) => v == Bytes(seq(n, j => f.bytes(a + j))) && Unchanged(f, f')
    case Write(a, data) => v == Nothing && Updated(f, f', a, |data|, j => if 0 <= j < |data| then data[j] else 0)
    case Evacuate(_, _) => v == Nothing && Unchanged(f, f')
  }

  // ----- Far memory

  datatype Far = Far(h: Heap, m: Mem)

  ghost predicate Ok(s: Far) { WorldOk(s.m.w) && HeapOk(s.h, s.m.w) }

  /** The flat memory a program sees. */
  ghost function View(s: Far): Flat {
    Flat(s.h.live, (iset x: int | x < CARM_PTR && Mapped(s.m, x)), (x: int) => ByteAt(s.m, x))
  }

  /** The `n` bytes from `a` on lie in one live allocation, or in host memory. */
  ghost predicate Block(s: Far, a: nat, n: nat) {
    || (a + n <= CARM_PTR && forall x :: a <= x < a + n ==> Mapped(s.m, x))
    || (exists b :: b in s.h.live && b <= a < b + s.h.live[b] && a + n <= b + s.h.live[b])
  }

  predicate Room(s: Far, n: nat) { s.h.aspaceStart + n <= CARM_PTR + s.m.w.total * OBJ_SIZE }

  /** Freeing `a` cannot exhaust the object list. */
  ghost predicate Freeable(s: Far, a: nat) {
    && a in s.h.live && CARM_PTR <= a && 0 < s.h.live[a]
    && s.m.w.total + LastObject(a, s.h.live[a]) - (a - CARM_PTR) / OBJ_SIZE < TOTAL_OBJECTS
  }

  ghost predicate HasString(s: Far, a: nat, len: nat) {
    StringAt(s.m, a, len) && Block(s, a, len + 1) && len + 1 < 0x8000_0000
  }

  /** Which operations a program may ask for: blocks it owns, within the limits of the allocator and the routines. */
  ghost predicate Allowed(s: Far, op: Op) {
    match op
    case Malloc(size) => size <= UINT64 - 8 && Room(s, EnforceSizeConstraints(size))
    case Calloc(elem, elemSize) =>
      var size := elem * elemSize % UINT64;
      size <= UINT64 - 8 && Room(s, EnforceSizeConstraints(size)) && EnforceSizeConstraints(size) < UINT32 - OBJ_SIZE
    case Free(a) => Freeable(s, a)
    case Realloc(a, size) =>
      && Freeable(s, a) && size <= UINT64 - 8 && s.h.live[a] < UINT32 - OBJ_SIZE
      && Room(s, EnforceSizeConstraints(size)) && Room(s, s.h.live[a])
    case Memset(d, c, n) => Block(s, d, n) && n < UINT32 - OBJ_SIZE
    case Memcpy(d, src, n) =>
      && Block(s, d, n) && Block(s, src, n) && n < UINT32 - OBJ_SIZE
      && (CARM_PTR <= d && CARM_PTR <= src ==> d <= src || src + n <= d)
    case Memcmp(d, src, n) => Block(s, d, n) && Block(s, src, n) && n < UINT32 - OBJ_SIZE
    case Strlen(a) => exists len: nat :: HasString(s, a, len)
    case Strcpy(d, a) => exists len: nat :: HasString(s, a, len) && Block(s, d, len + 1) && (d + len < a || a + len < d)
    case Strcmp(d, a) => exists len: nat :: HasString(s, a, len) && Block(s, d, len + 1)
    case Read(a, n) => CARM_PTR <= a && n > 0 && Block(s, a, n) && (a - CARM_PTR) % OBJ_SIZE + n <= OBJ_SIZE
    case Write(a, data) =>
      CARM_PTR <= a && data != [] && Block(s, a, |data|) && (a - CARM_PTR) % OBJ_SIZE + |data| <= OBJ_SIZE
    case Evacuate(id, word) => id in s.m.w.objs && s.m.w.objs[id].present && PresentClear(word)
  }

  /** What the runtime promises for one operation, in its own terms. */
  ghost predicate Did(s: Far, op: Op, v: Value, s': Far) {
    match op
    case Malloc(size) =>
      v == Address(s.h.aspaceStart) && s'.h == Bumped(s.h, EnforceSizeConstraints(size)) && s'.m == s.m
    case Calloc(elem, elemSize) =>
      var size := EnforceSizeConstraints(elem * elemSize % UINT64);
      && v == Address(s.h.aspaceStart) && s'.h == Bumped(s.h, size) && LiveSame(s.h.live, s.m, s'.m)
      && forall x :: v.a <= x < v.a + size ==> ByteAt(s'.m, x) == 0
    case Free(a) => s'.h.live == s.h.live - {a} && LiveSame(s'.h.live, s.m, s'.m)
    case Realloc(a, size) =>
      && LiveSame(s.h.live - {a}, s.m, s'.m) && a in s.h.live
      && (if size == 0 then v == Address(0) && s'.h.live == s.h.live - {a}
          else
            && v == Address(s.h.aspaceStart) && s'.h.live == (s.h.live - {a})[v.a := EnforceSizeConstraints(size)]
            && Moved(s.m, s'.m, a, v.a, Least(s.h.live[a], size)))
    case Memset(d, c, n) => v == Nothing && s'.h == s.h && Filled(s.m, s'.m, d, (c % 256) as u8, n)
    case Memcpy(d, src, n) => v == Nothing && s'.h == s.h && Copied(s.m, s'.m, d, src, n)
    case Memcmp(d, src, n) => v == Number(Compare(s.m, d, src, n)) && s'.h == s.h && SameMemory(s.m, s'.m)
    case Strlen(a) => v.Number? && v.n >= 0 && StringAt(s.m, a, v.n) && s'.h == s.h && SameMemory(s.m, s'.m)
    case Strcpy(d, a) =>
      v == Nothing && s'.h == s.h && exists len: nat :: StringAt(s.m, a, len) && Copied(s.m, s'.m, d, a, len + 1)
    case Strcmp(d, a) =>
      && s'.h == s.h && SameMemory(s.m, s'.m)
      && exists len: nat :: StringAt(s.m, a, len) && v == Number(StrCompare(s.m, d, a, len + 1))
    case Read(a, n) =>
      v.Bytes? && |v.data| == n && Shows(s.m, a, v.data) && s'.h == s.h && SameMemory(s.m, s'.m)
    case Write(a, data) => v == Nothing && s'.h == s.h && WroteAt(s.m, s'.m, a, data)
    case Evacuate(_, _) => v == Nothing && s'.h == s.h && SameMemory(s.m, s'.m)
  }

  /** One operation: from a state in order, an allowed one does what the runtime promises. */
  ghost predicate Next(s: Far, op: Op, v: Value, s': Far) {
    Ok(s) && Allowed(s, op) ==> Ok(s') && Did(s, op, v, s')
  }

  // ----- Every operation means on far memory what it means on flat memory

  lemma SameView(s: Far, s': Far)
    requires SameMemory(s.m, s'.m) && s'.h == s.h
    ensures Unchanged(View(s), View(s'))
  {
    hide Mapped, ByteAt;
    assert View(s').host == View(s).host;
  }

  lemma WriteView(s: Far, s': Far, d: int, n: int, value: int -> u8)
    requires s'.h == s.h && forall x :: Mapped(s'.m, x) == Mapped(s.m, x)
    requires forall x :: ByteAt(s'.m, x) == if d <= x < d + n then value(x - d) else ByteAt(s.m, x)
    ensures Updated(View(s), View(s'), d, n, value)
  {
    hide Mapped, ByteAt;
    assert View(s').host == View(s).host;
  }

  lemma LiveView(s: Far, s': Far, live: map<nat, nat>)
    requires LiveSame(live, s.m, s'.m)
    ensures View(s').host == View(s).host
    ensures forall x :: x in View(s).host || Covered(live, x) ==> View(s').bytes(x) == View(s).bytes(x)
  {
    hide FlatPage, Usable;
    forall x | x in View(s).host || Covered(live, x) ensures View(s').bytes(x) == View(s).bytes(x) {
      if Covered(live, x) {
        var a: nat :| Inside(live, a, x);
        assert ByteAt(s'.m, x) == ByteAt(s.m, x);
      }
    }
    assert View(s').host == View(s).host;
  }

  /** A block at the end of the arena is out of sight. */
  lemma GrownView(s: Far, s': Far, live: map<nat, nat>, asize: nat, size: nat)
    requires Ok(s) && LiveSame(live, s.m, s'.m) && (forall a :: a in live ==> a in s.h.live && live[a] == s.h.live[a])
    requires size <= asize && s'.h.live == live[s.h.aspaceStart := asize] && 0 < asize
    ensures Grown(live, View(s), View(s'), s.h.aspaceStart, size)
  {
    hide WorldOk, CountsOk, OwnersOk, Mapped, ByteAt;
    LiveView(s, s', live);
  }

  lemma {:induction false} SameComparison(m: Mem, bytes: int -> u8, d: int, src: int, n: nat)
    requires forall x :: bytes(x) == ByteAt(m, x)
    ensures FlatCompare(bytes, d, src, n) == Compare(m, d, src, n)
    ensures FlatStrcmp(bytes, d, src, n) == StrCompare(m, d, src, n)
    decreases n
  {
    hide ByteAt, Mapped;
    if n > 0 { SameComparison(m, bytes, d + 1, src + 1, n - 1); }
  }

  lemma SameBytes(s: Far)
    ensures forall x :: View(s).bytes(x) == ByteAt(s.m, x)
  {}

  lemma SameString(s: Far, a: int, len: nat)
    requires StringAt(s.m, a, len)
    ensures StringIn(View(s).bytes, a, len)
  {
    hide ByteAt;
  }

  lemma AllocIsFlat(s: Far, op: Op, v: Value, s': Far)
    requires Ok(s) && Allowed(s, op) && Did(s, op, v, s') && (op.Malloc? || op.Calloc? || op.Free? || op.Realloc?)
    ensures FlatNext(View(s), op, v, View(s'))
  {
    hide WorldOk, HeapOk, Mapped, ByteAt, EnforceSizeConstraints;
    match op
    case Malloc(size) =>
      SizeConstraintsMeaning(size);
      LiveSameRefl(s.h.live, s.m);
      GrownView(s, s', s.h.live, EnforceSizeConstraints(size), size);
    case Calloc(elem, elemSize) =>
      SizeConstraintsMeaning(elem * elemSize % UINT64);
      GrownView(s, s', s.h.live, EnforceSizeConstraints(elem * elemSize % UINT64), elem * elemSize % UINT64);
    case Free(a) => LiveView(s, s', s'.h.live);
    case Realloc(a, size) =>
      var live := s.h.live - {a};
      SizeConstraintsMeaning(size);
      if size == 0 { LiveView(s, s', live); } else {
        GrownView(s, s', live, EnforceSizeConstraints(size), size);
        ReallocView(s, s', a, v.a, Least(s.h.live[a], size));
      }
    case _ =>
  }

  lemma ReallocView(s: Far, s': Far, a: nat, ret: nat, n: nat)
    requires Moved(s.m, s'.m, a, ret, n)
    ensures forall x :: ret <= x < ret + n ==> View(s').bytes(x) == View(s).bytes(a + (x - ret))
  {
    hide ByteAt;
  }

  lemma StepIsFlat(s: Far, op: Op, v: Value, s': Far)
    requires Ok(s) && Allowed(s, op) && Next(s, op, v, s')
    ensures Ok(s') && FlatNext(View(s), op, v, View(s'))
  {
    hide Ok, Mapped, ByteAt, Allowed, StringAt, View;
    match op
    case Malloc(_) => AllocIsFlat(s, op, v, s');
    case Calloc(_, _) => AllocIsFlat(s, op, v, s');
    case Free(_) => AllocIsFlat(s, op, v, s');
    case Realloc(_, _) => AllocIsFlat(s, op, v, s');
    case Memset(d, c, n) => WriteView(s, s', d, n, j => (c % 256) as u8);
    case Memcpy(d, src, n) => CopyIsFlat(s, s', d, src, n);
    case Memcmp(d, src, n) => SameView(s, s'); SameBytes(s); SameComparison(s.m, View(s).bytes, d, src, n);
    case Strlen(a) => SameView(s, s'); SameString(s, a, v.n);
    case Strcpy(d, a) =>
      var len: nat :| StringAt(s.m, a, len) && Copied(s.m, s'.m, d, a, len + 1);
      SameString(s, a, len);
      CopyIsFlat(s, s', d, a, len + 1);
    case Strcmp(d, a) =>
      var len: nat :| StringAt(s.m, a, len) && v == Number(StrCompare(s.m, d, a, len + 1));
      SameView(s, s');
      SameString(s, a, len);
      SameBytes(s);
      SameComparison(s.m, View(s).bytes, d, a, len + 1);
    case Read(a, n) => SameView(s, s'); ReadIsFlat(s, a, n, v.data);
    case Write(a, data) => WriteView(s, s', a, |data|, j => if 0 <= j < |data| then data[j] else 0);
    case Evacuate(_, _) => SameView(s, s');
  }

  lemma CopyIsFlat(s: Far, s': Far, d: nat, src: nat, n: nat)
    requires s'.h == s.h && Copied(s.m, s'.m, d, src, n)
    ensures var f := View(s); Updated(f, View(s'), d, n, j => f.bytes(src + j))
  {
    hide Mapped, ByteAt;
    var f := View(s);
    WriteView(s, s', d, n, j => f.bytes(src + j));
  }

  lemma ReadIsFlat(s: Far, a: nat, n: nat, data: seq<u8>)
    requires |data| == n && Shows(s.m, a, data)
    ensures var f := View(s); data == seq(n, j => f.bytes(a + j))
  {
    hide ByteAt;
  }

  // ----- Runs

  ghost predicate RunOk(states: seq<Far>, ops: seq<Op>, values: seq<Value>) {
    && |states| == |ops| + 1 && |values| == |ops|
    && forall k :: 0 <= k < |ops| ==> Allowed(states[k], ops[k]) && Next(states[k], ops[k], values[k], states[k + 1])
  }

  /** On every run, whatever the allocator recycles and the evacuator moves, each operation returns what flat memory
      returns and leaves the bytes of the live allocations as flat memory has them. */
  lemma {:induction false} ProgramIsFlat(states: seq<Far>, ops: seq<Op>, values: seq<Value>, k: nat)
    requires RunOk(states, ops, values) && Ok(states[0]) && k < |ops|
    ensures Ok(states[k]) && Ok(states[k + 1])
    ensures FlatNext(View(states[k]), ops[k], values[k], View(states[k + 1]))
    decreases k
  {
    hide Ok, Allowed, Next, FlatNext, View;
    if k > 0 { ProgramIsFlat(states, ops, values, k - 1); }
    StepIsFlat(states[k], ops[k], values[k], states[k + 1]);
  }

  // ----- The runtime takes such steps

  ghost function Now(heap: FarHeap): Far
    reads heap, heap.rt
  {
    Far(heap.H(), heap.rt.Now())
  }

  lemma BlockRegion(s: Far, a: nat, n: nat)
    requires Ok(s) && Block(s, a, n)
    ensures Region(s.m, a, n)
  {
    hide WorldOk, HeapOk, Mapped;
    if !(a + n <= CARM_PTR && forall x :: a <= x < a + n ==> Mapped(s.m, x)) {
      var b :| b in s.h.live && b <= a < b + s.h.live[b] && a + n <= b + s.h.live[b];
      LiveRegion(s.h, s.m, b);
      LiveAbove(s.h, s.m.w, b);
    }
  }

  lemma LiveAbove(h: Heap, w: World, b: nat)
    requires HeapOk(h, w) && b in h.live
    ensures CARM_PTR <= b
  {}

  lemma StillValid(h: Heap, m: Mem, m': Mem)
    requires HeapOk(h, m.w) && m'.w.total == m.w.total && forall a :: Mapped(m', a) == Mapped(m, a)
    ensures HeapOk(h, m'.w)
  {
    StillOk(h, m, m');
  }

  /** The operations of the allocator. */
  method Allocate(heap: FarHeap, op: Op) returns (v: Value)
    requires heap.Valid() && Allowed(Now(heap), op) && (op.Malloc? || op.Calloc? || op.Free? || op.Realloc?)
    modifies heap, heap.rt
    ensures heap.Valid() && Did(old(Now(heap)), op, v, Now(heap))
  {
    hide WorldOk, HeapOk, Mapped, ByteAt, LastObject, Block, HasString, EnforceSizeConstraints;
    v := Nothing;
    match op
    case Malloc(size) =>
      LiveSameRefl(heap.live, heap.rt.Now());
      var a := heap.RemoteMalloc(size);
      v := Address(a);
    case Calloc(elem, elemSize) =>
      var a := heap.Calloc(elem, elemSize);
      v := Address(a);
    case Free(a) => heap.CarmFree(a);
    case Realloc(a, size) =>
      var ret := heap.Realloc(a, size);
      v := Address(ret);
    case _ =>
  }

  /** The routines that write memory. */
  method Fill(heap: FarHeap, op: Op) returns (v: Value)
    requires heap.Valid() && Allowed(Now(heap), op) && (op.Memset? || op.Memcpy? || op.Strcpy?)
    modifies heap.rt
    ensures heap.Valid() && Did(old(Now(heap)), op, v, Now(heap))
  {
    hide WorldOk, HeapOk, Mapped, ByteAt, Block, StringAt, Region;
    ghost var s := Now(heap);
    v := Nothing;
    match op
    case Memset(d, c, n) =>
      BlockRegion(s, d, n);
      heap.rt.CarmMemset(d, c, n);
      StillValid(s.h, s.m, heap.rt.Now());
    case Memcpy(d, src, n) =>
      BlockRegion(s, d, n);
      BlockRegion(s, src, n);
      heap.rt.CarmMemcpy(d, src, n);
      StillValid(s.h, s.m, heap.rt.Now());
    case Strcpy(d, a) =>
      ghost var len: nat :| HasString(s, a, len) && Block(s, d, len + 1) && (d + len < a || a + len < d);
      BlockRegion(s, a, len + 1);
      BlockRegion(s, d, len + 1);
      heap.rt.CarmStrcpy(d, a, len);
      StillValid(s.h, s.m, heap.rt.Now());
    case _ =>
  }

  /** The routines that only look at memory. */
  method Look(heap: FarHeap, op: Op) returns (v: Value)
    requires heap.Valid() && Allowed(Now(heap), op) && (op.Memcmp? || op.Strlen? || op.Strcmp?)
    modifies heap.rt
    ensures heap.Valid() && Did(old(Now(heap)), op, v, Now(heap))
  {
    hide WorldOk, HeapOk, Mapped, ByteAt, Block, StringAt, Region, Compare, StrCompare;
    ghost var s := Now(heap);
    v := Nothing;
    match op
    case Memcmp(d, src, n) =>
      BlockRegion(s, d, n);
      BlockRegion(s, src, n);
      AllDecides(s.m, d, src, n);
      var r := heap.rt.CarmMemcmp(d, src, n, n);
      v := Number(r);
      StillValid(s.h, s.m, heap.rt.Now());
    case Strlen(a) =>
      ghost var len: nat :| HasString(s, a, len);
      BlockRegion(s, a, len + 1);
      var r := heap.rt.CarmStrlen(a, len);
      v := Number(r);
      StillValid(s.h, s.m, heap.rt.Now());
    case Strcmp(d, a) =>
      ghost var len: nat :| HasString(s, a, len) && Block(s, d, len + 1);
      BlockRegion(s, a, len + 1);
      BlockRegion(s, d, len + 1);
      AllDecides(s.m, d, a, len + 1);
      var r := heap.rt.CarmStrcmp(d, a, len, len + 1);
      v := Number(r);
      StillValid(s.h, s.m, heap.rt.Now());
    case _ =>
  }

  lemma AllDecides(m: Mem, d: int, s: int, n: nat)
    ensures Decided(m, d, s, n, n)
  {}

  /** Guarded reads and writes inside one object, and evacuations. */
  method Touch(heap: FarHeap, op: Op) returns (v: Value)
    requires heap.Valid() && Allowed(Now(heap), op) && (op.Read? || op.Write? || op.Evacuate?)
    modifies heap.rt
    ensures heap.Valid() && Did(old(Now(heap)), op, v, Now(heap))
  {
    hide WorldOk, HeapOk, Mapped, ByteAt, Block, GetCarmPtr, Region, Usable, Invisible, Pinned, Resident, Joined;
    ghost var s := Now(heap);
    v := Nothing;
    match op
    case Read(a, n) =>
      FarBlock(s, a, n, false);
      var p := GetCarmPtr(a, false);
      var base := heap.rt.PtrDeref(p);
      ghost var between := heap.rt.Now();
      var data := heap.rt.LoadChunk(p, base, n);
      v := Bytes(data);
      SameShows(s.m, between, a, data);
      StillValid(s.h, s.m, heap.rt.Now());
    case Write(a, data) =>
      FarBlock(s, a, |data|, true);
      var p := GetCarmPtr(a, true);
      var base := heap.rt.PtrDeref(p);
      ghost var between := heap.rt.Now();
      heap.rt.StoreChunk(p, base, data);
      SameWrote(s.m, between, heap.rt.Now(), a, data);
      StillValid(s.h, s.m, heap.rt.Now());
    case Evacuate(id, word) =>
      heap.rt.Evacuate(id, word);
      StillValid(s.h, s.m, heap.rt.Now());
    case _ =>
  }

  lemma SameShows(m: Mem, m': Mem, a: int, data: seq<u8>)
    requires SameMemory(m, m') && Shows(m', a, data)
    ensures Shows(m, a, data)
  {
    hide ByteAt, Mapped;
  }

  lemma SameWrote(m: Mem, m': Mem, m'': Mem, a: int, data: seq<u8>)
    requires SameMemory(m, m') && WroteAt(m', m'', a, data)
    ensures WroteAt(m, m'', a, data)
  {
    hide ByteAt, Mapped;
  }

  /** The pointer to a block inside one object. */
  lemma FarBlock(s: Far, a: nat, n: nat, mut: bool)
    requires Ok(s) && Block(s, a, n) && CARM_PTR <= a && n > 0 && (a - CARM_PTR) % OBJ_SIZE + n <= OBJ_SIZE
    ensures var p := GetCarmPtr(a, mut);
      p.mut == mut && p.offset + n <= OBJ_SIZE && Joined(p.objIndex, p.offset) == a && Usable(s.m.w, p.objIndex)
  {
    hide WorldOk, HeapOk, Usable, Block;
    BlockRegion(s, a, n);
    assert Mapped(s.m, a);
    SplitAt(a, mut);
    assert a / CARM_PTR == 1;
  }

  /** Every operation of a program is one of these steps. */
  method Perform(heap: FarHeap, op: Op) returns (v: Value)
    requires heap.Valid() && Allowed(Now(heap), op)
    modifies heap, heap.rt
    ensures heap.Valid() && Next(old(Now(heap)), op, v, Now(heap))
    ensures FlatNext(View(old(Now(heap))), op, v, View(Now(heap)))
  {
    hide FarHeap.Valid, Allowed, Did, FlatNext, View;
    ghost var s := Now(heap);
    ValidOk(heap);
    match op {
      case Malloc(_) | Calloc(_, _) | Free(_) | Realloc(_, _) => v := Allocate(heap, op);
      case Memset(_, _, _) | Memcpy(_, _, _) | Strcpy(_, _) => v := Fill(heap, op);
      case Memcmp(_, _, _) | Strlen(_) | Strcmp(_, _) => v := Look(heap, op);
      case Read(_, _) | Write(_, _) | Evacuate(_, _) => v := Touch(heap, op);
    }
    ValidOk(heap);
    StepIsFlat(s, op, v, Now(heap));
  }

  lemma ValidOk(heap: FarHeap)
    requires heap.Valid()
    ensures Ok(Now(heap))
  {}
}
