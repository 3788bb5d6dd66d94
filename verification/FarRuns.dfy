/** Any interleaving of guarded reads, guarded writes and evacuations behaves like flat memory. */
module FarRuns {
  import opened FarWorld

  /** What AIFM decides during one slow path: the identity of a new object, the address a fetched one gets, the word
      it reports. */
  datatype Oracle = Oracle(id: nat, slot: nat, word: nat)

  predicate OracleOk(w: World, i: nat, mut: bool, o: Oracle) {
    && i < |w.ptrs| && o.id != 0 && o.id !in w.objs && o.slot !in w.local
    && var w1 := Allocated(w, i, o.id);
      w1.ptrs[i] in w1.objs && DerefWord(o.word, Fetched(w1, w1.ptrs[i], o.slot, mut).objs[w1.ptrs[i]], mut)
  }

  /** AIFM always has an answer: an unused identity, a free local address, and a word that says so. */
  lemma OracleExists(w: World, i: nat, mut: bool) returns (o: Oracle)
    requires WorldOk(w) && Usable(w, i)
    ensures OracleOk(w, i, mut, o)
  {
    var id := FreshNat(w.objs.Keys + {0});
    var slot := FreshNat(w.local.Keys);
    AllocatedOk(w, i, id);
    var w1 := Allocated(w, i, id);
    var obj := Fetched(w1, w1.ptrs[i], slot, mut).objs[w1.ptrs[i]];
    o := Oracle(id, slot, if obj.dirty then obj.addr * 0x20000 else obj.addr * 0x20000 + 0x400);
    CleanWord(obj.addr);
  }

  /** A word made of an address and the DirtyClear bit, or none. */
  lemma CleanWord(addr: nat)
    ensures var v := addr * 0x20000; DataAddr(v) == addr && !Exceptional(v, true) && !DirtyClear(v)
    ensures var v := addr * 0x20000 + 0x400; DataAddr(v) == addr && !Exceptional(v, false) && DirtyClear(v)
  {
    FieldsOf(addr, 0);
    FieldsOf(addr, 1);
  }

  lemma FieldsOf(addr: nat, bit: nat)
    requires bit <= 1
    ensures var v := addr * 0x20000 + bit * 0x400;
      && v / 0x20000 == addr && v / 0x80 == addr * 0x400 + bit * 8 && v / 0x100 == addr * 0x200 + bit * 4
      && v / 0x400 == addr * 0x80 + bit && v / 0x10000 == addr * 2
  {}

  lemma {:induction false} FreshNat(s: set<nat>) returns (n: nat)
    ensures n !in s
    decreases s
  {
    n := 0;
    if s != {} {
      var m :| m in s;
      n := FreshNatAbove(s, m);
    }
  }

  lemma {:induction false} FreshNatAbove(s: set<nat>, m: nat) returns (n: nat)
    ensures n > m && n !in s
    decreases set x | x in s && x > m
  {
    if m + 1 in s {
      var above, next := set x | x in s && x > m, set x | x in s && x > m + 1;
      assert next < above by { assert m + 1 in above && m + 1 !in next; }
      n := FreshNatAbove(s, m + 1);
    } else {
      n := m + 1;
    }
  }

  /** _ptrDeref: the fast path uses the cached word, the slow path refreshes it. */
  function Guarded(w: World, i: nat, mut: bool, o: Oracle): World
    requires i < |w.ptrs| == |w.objState| && o.id != 0 && (w.ptrs[i] != 0 ==> w.ptrs[i] in w.objs)
  {
    if Exceptional(w.objState[i], mut) then Dereffed(w, i, o.id, o.slot, mut, o.word) else w
  }

  function GuardAddr(w: World, i: nat, mut: bool, o: Oracle): nat
    requires i < |w.objState|
  {
    if Exceptional(w.objState[i], mut) then DataAddr(o.word) else DataAddr(w.objState[i])
  }

  /** A passing guard yields the object's current address; a write happens only on an object recorded dirty. */
  lemma GuardOk(w: World, i: nat, mut: bool, o: Oracle)
    requires WorldOk(w) && Usable(w, i)
    requires Exceptional(w.objState[i], mut) ==> OracleOk(w, i, mut, o)
    requires o.id != 0
    ensures w.ptrs[i] != 0 ==> w.ptrs[i] in w.objs
    ensures var w' := Guarded(w, i, mut, o);
      WorldOk(w') && Invisible(w, w') && Pinned(w, w') && Resident(w', i, GuardAddr(w, i, mut, o), mut)
  {
    if Exceptional(w.objState[i], mut) {
      DereffedOk(w, i, o.id, o.slot, mut, o.word);
    } else {
      assert WordOk(w, i);
    }
  }

  datatype Access =
    | Read(i: nat, off: nat, n: nat, o: Oracle)
    | Write(i: nat, off: nat, data: seq<u8>, o: Oracle)
    | Evacuate(id: nat, word: nat)

  ghost predicate Enabled(w: World, a: Access) {
    match a
    case Read(i, off, n, o) => Usable(w, i) && off + n <= OBJ_SIZE && o.id != 0 && i < |w.objState|
      && (Exceptional(w.objState[i], false) ==> OracleOk(w, i, false, o))
    case Write(i, off, data, o) => Usable(w, i) && off + |data| <= OBJ_SIZE && o.id != 0 && i < |w.objState|
      && (Exceptional(w.objState[i], true) ==> OracleOk(w, i, true, o))
    case Evacuate(id, word) => id in w.objs && w.objs[id].present && PresentClear(word)
  }

  function Sliced(page: seq<u8>, off: nat, n: nat): seq<u8> {
    if off + n <= |page| then page[off..off + n] else []
  }

  /** One access against the real world: guard, then touch local memory at the address the guard gave. */
  function Step(w: World, a: Access): (World, seq<u8>) {
    match a
    case Read(i, off, n, o) =>
      if i < |w.ptrs| == |w.objState| && o.id != 0 && (w.ptrs[i] != 0 ==> w.ptrs[i] in w.objs) then
        var w1 := Guarded(w, i, false, o);
        var base := GuardAddr(w, i, false, o);
        (w1, if base in w1.local then Sliced(w1.local[base], off, n) else [])
      else (w, [])
    case Write(i, off, data, o) =>
      if i < |w.ptrs| == |w.objState| && o.id != 0 && (w.ptrs[i] != 0 ==> w.ptrs[i] in w.objs) then
        var w1 := Guarded(w, i, true, o);
        var base := GuardAddr(w, i, true, o);
        (if base in w1.local && off + |data| <= |w1.local[base]| then Stored(w1, base, off, data) else w1, [])
      else (w, [])
    case Evacuate(id, word) => (if id in w.objs then Evacuated(w, id, word) else w, [])
  }

  /** The same access against flat memory. */
  function FlatStep(pages: seq<seq<u8>>, a: Access): (seq<seq<u8>>, seq<u8>) {
    match a
    case Read(i, off, n, o) => (pages, if i < |pages| then Sliced(pages[i], off, n) else [])
    case Write(i, off, data, o) =>
      (if i < |pages| && off + |data| <= |pages[i]| then pages[i := Spliced(pages[i], off, data)] else pages, [])
    case Evacuate(id, word) => (pages, [])
  }

  function Flat(w: World): seq<seq<u8>> {
    seq(|w.ptrs|, i => FlatPage(w, i))
  }

  lemma StepIsFlat(w: World, a: Access)
    requires WorldOk(w) && Enabled(w, a)
    ensures WorldOk(Step(w, a).0) && FlatStep(Flat(w), a) == (Flat(Step(w, a).0), Step(w, a).1)
  {
    hide WorldOk, Invisible, Usable, FlatPage, Flat;
    match a
    case Read(i, off, n, o) => ReadIsFlat(w, i, off, n, o);
    case Write(i, off, data, o) => WriteIsFlat(w, i, off, data, o);
    case Evacuate(id, word) =>
      EvacuatedOk(w, id, word);
      SameFlat(w, Evacuated(w, id, word));
  }

  lemma ReadIsFlat(w: World, i: nat, off: nat, n: nat, o: Oracle)
    requires WorldOk(w) && Enabled(w, Read(i, off, n, o))
    ensures var a := Read(i, off, n, o);
      WorldOk(Step(w, a).0) && FlatStep(Flat(w), a) == (Flat(Step(w, a).0), Step(w, a).1)
  {
    hide WorldOk, Invisible, Usable, FlatPage, Guarded, GuardAddr, Pinned;
    UsableIndex(w, i);
    GuardOk(w, i, false, o);
    var w1 := Guarded(w, i, false, o);
    ResidentPage(w1, i, GuardAddr(w, i, false, o), false);
    SameFlat(w, w1);
  }

  lemma WriteIsFlat(w: World, i: nat, off: nat, data: seq<u8>, o: Oracle)
    requires WorldOk(w) && Enabled(w, Write(i, off, data, o))
    ensures var a := Write(i, off, data, o);
      WorldOk(Step(w, a).0) && FlatStep(Flat(w), a) == (Flat(Step(w, a).0), Step(w, a).1)
  {
    hide WorldOk, Invisible, Usable, FlatPage, Guarded, GuardAddr, Pinned, Stored, Resident;
    UsableIndex(w, i);
    GuardOk(w, i, true, o);
    var w1 := Guarded(w, i, true, o);
    StoredOk(w1, i, GuardAddr(w, i, true, o), off, data);
    SameFlat(w, w1);
    assert Flat(Step(w, Write(i, off, data, o)).0) == Flat(w)[i := Spliced(FlatPage(w, i), off, data)];
  }

  lemma UsableIndex(w: World, i: nat)
    requires WorldOk(w) && Usable(w, i)
    ensures i < |w.ptrs| == |w.objState|
  {}

  lemma SameFlat(w: World, w': World)
    requires Invisible(w, w')
    ensures Flat(w') == Flat(w) && |w'.ptrs| == |w.ptrs| && forall i :: FlatPage(w', i) == FlatPage(w, i)
  {}

  function Run(w: World, accesses: seq<Access>): (World, seq<seq<u8>>)
    decreases |accesses|
  {
    if accesses == [] then (w, [])
    else
      var (w1, out) := Step(w, accesses[0]);
      var (w2, outs) := Run(w1, accesses[1..]);
      (w2, [out] + outs)
  }

  function FlatRun(pages: seq<seq<u8>>, accesses: seq<Access>): (seq<seq<u8>>, seq<seq<u8>>)
    decreases |accesses|
  {
    if accesses == [] then (pages, [])
    else
      var (p1, out) := FlatStep(pages, accesses[0]);
      var (p2, outs) := FlatRun(p1, accesses[1..]);
      (p2, [out] + outs)
  }

  ghost predicate RunOk(w: World, accesses: seq<Access>)
    decreases |accesses|
  {
    accesses == [] || (Enabled(w, accesses[0]) && RunOk(Step(w, accesses[0]).0, accesses[1..]))
  }

  /** Every read returns what flat memory would, and no write is lost, however evacuations interleave. */
  lemma {:induction false} RunIsFlat(w: World, accesses: seq<Access>)
    requires WorldOk(w) && RunOk(w, accesses)
    ensures WorldOk(Run(w, accesses).0)
    ensures FlatRun(Flat(w), accesses) == (Flat(Run(w, accesses).0), Run(w, accesses).1)
    decreases |accesses|
  {
    hide WorldOk, Step, FlatStep, Enabled;
    if accesses != [] {
      StepIsFlat(w, accesses[0]);
      RunIsFlat(Step(w, accesses[0]).0, accesses[1..]);
    }
  }
}
