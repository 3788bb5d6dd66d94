/** The TrackFM runtime's view of far memory: cached metadata words that guard each access, the slow
    path that refreshes them, and the evacuator that invalidates them. */
module FarWorld {

  newtype u8 = x: int | 0 <= x < 256

  const OBJ_SIZE: nat := 4096
  const TOTAL_OBJECTS: nat := 41943040
  /** A word with its low 52 bits set. */
  const FLUSH_CACHE: nat := 0xf_ffff_ffff_ffff

  // ----- Metadata words

  predicate HotClear(word: nat) { word / 0x80 % 2 == 1 }
  predicate PresentClear(word: nat) { word / 0x100 % 2 == 1 }
  predicate DirtyClear(word: nat) { word / 0x400 % 2 == 1 }
  predicate EvacuationSet(word: nat) { word / 0x10000 % 2 == 1 }

  /** The object data address of a word, at bit kObjectDataAddrBitPos. */
  function DataAddr(word: nat): nat { word / 0x20000 }

  /** The test of _ptrDeref: does the cached word send the access to the slow path? */
  predicate Exceptional(word: nat, mut: bool) {
    HotClear(word) || PresentClear(word) || EvacuationSet(word) || (mut && DirtyClear(word))
  }

  // ----- The world

  /** An AIFM object: where it is if it is in local memory, what the far side holds, and the index it reports to. */
  datatype FarObj = FarObj(present: bool, dirty: bool, addr: nat, remote: seq<u8>, carmIndex: nat)

  /** carm_obj_state[], ptrs_[] (0 is null), total_obj_cnt, the AIFM objects by identity, and local object memory
      by address. `blank(i)` is what object i holds when it is first allocated. */
  datatype World = World(objState: seq<nat>, ptrs: seq<nat>, total: nat, objs: map<nat, FarObj>,
      local: map<nat, seq<u8>>,
    blank: nat -> seq<u8>)

  /** Index `i` is in use and owns its object, or has none yet. */
  predicate Usable(w: World, i: int) {
    0 <= i < w.total && i < |w.ptrs| && (w.ptrs[i] == 0 || (w.ptrs[i] in w.objs && w.objs[w.ptrs[i]].carmIndex == i))
  }

  function Contents(w: World, o: FarObj): seq<u8> {
    if o.present && o.addr in w.local then w.local[o.addr] else o.remote
  }

  /** The page the program sees at index `i`. */
  function FlatPage(w: World, i: int): seq<u8> {
    if !Usable(w, i) then [] else if w.ptrs[i] == 0 then w.blank(i) else Contents(w, w.objs[w.ptrs[i]])
  }

  ghost predicate ObjectOk(w: World, id: nat)
    requires id in w.objs
  {
    var o := w.objs[id];
    && id != 0 && |o.remote| == OBJ_SIZE
    && o.carmIndex < |w.ptrs| && w.ptrs[o.carmIndex] == id
    && (o.present ==> o.addr in w.local && |w.local[o.addr]| == OBJ_SIZE)
    && (o.present && !o.dirty ==> w.local[o.addr] == o.remote)
  }

  /** A word that passes the guard names the object's present address; one that passes the write guard
      belongs to an object already recorded dirty. */
  ghost predicate WordOk(w: World, i: nat)
    requires i < |w.ptrs| == |w.objState|
  {
    !Exceptional(w.objState[i], false) ==>
      && w.ptrs[i] != 0 && w.ptrs[i] in w.objs
      && w.objs[w.ptrs[i]].present && w.objs[w.ptrs[i]].addr == DataAddr(w.objState[i])
      && (!Exceptional(w.objState[i], true) ==> w.objs[w.ptrs[i]].dirty)
  }

  ghost predicate WorldOk(w: World) {
    && |w.ptrs| == |w.objState| == TOTAL_OBJECTS && w.total <= TOTAL_OBJECTS
    && (forall i :: w.total <= i < |w.ptrs| ==> w.ptrs[i] == 0 && Exceptional(w.objState[i], false))
    && (forall i :: |w.blank(i)| == OBJ_SIZE)
    && (forall id :: id in w.objs ==> ObjectOk(w, id))
    && (forall i :: 0 <= i < |w.ptrs| && w.ptrs[i] != 0 ==> w.ptrs[i] in w.objs)
    && (forall a, b :: a in w.objs && b in w.objs && a != b && w.objs[a].present && w.objs[b].present ==>
      w.objs[a].addr != w.objs[b].addr)
    && (forall i :: Usable(w, i) ==> WordOk(w, i))
  }

  /** After flush_carn_meta_obj and init_objects. */
  function Initial(blank: nat -> seq<u8>, numObjects: nat): World {
    World(seq(TOTAL_OBJECTS, _ => FLUSH_CACHE), seq(TOTAL_OBJECTS, _ => 0), numObjects, map[], map[], blank)
  }

  lemma InitialOk(blank: nat -> seq<u8>, numObjects: nat)
    requires (forall i :: |blank(i)| == OBJ_SIZE) && numObjects <= TOTAL_OBJECTS
    ensures WorldOk(Initial(blank, numObjects))
  {
    assert Exceptional(FLUSH_CACHE, false);
  }

  // ----- The slow path

  /** allocate_object. */
  function Allocated(w: World, i: nat, id: nat): World
    requires i < |w.ptrs|
  {
    if w.ptrs[i] != 0 then w
    else w.(ptrs := w.ptrs[i := id], objs := w.objs[id := FarObj(false, false, 0, w.blank(i), i)])
  }

  /** The object is in local memory, at `slot` if it had to be fetched. */
  function Loaded(w: World, id: nat, slot: nat): World
    requires id in w.objs
  {
    var o := w.objs[id];
    if o.present then w
    else w.(objs := w.objs[id := o.(present := true, dirty := false, addr := slot)], local := w.local[slot := o.remote])
  }

  function Marked(w: World, id: nat): World
    requires id in w.objs
  {
    w.(objs := w.objs[id := w.objs[id].(dirty := true)])
  }

  /** What a deref does to an object: fetch it if necessary, and mark it dirty if the deref is mutable. */
  function Fetched(w: World, id: nat, slot: nat, mut: bool): World
    requires id in w.objs
  {
    if mut then Marked(Loaded(w, id, slot), id) else Loaded(w, id, slot)
  }

  /** What AIFM's __deref and __deref_mut return for a present object: its address, hot, not being evacuated,
      with the dirty bit clear only if the object is dirty. */
  predicate DerefWord(word: nat, o: FarObj, mut: bool) {
    && !Exceptional(word, mut) && DataAddr(word) == o.addr && (!DirtyClear(word) ==> o.dirty)
  }

  /** carmDeref_read and carmDeref_write. */
  function Dereffed(w: World, i: nat, id: nat, slot: nat, mut: bool, word: nat): World
    requires i < |w.ptrs| == |w.objState| && id != 0 && (w.ptrs[i] != 0 ==> w.ptrs[i] in w.objs)
  {
    var w1 := Allocated(w, i, id);
    var w2 := Fetched(w1, w1.ptrs[i], slot, mut);
    w2.(objState := w2.objState[i := word])
  }

  /** What one step may do to the rest of the world: nothing the program can see, and no present object moves. */
  ghost predicate Invisible(w: World, w': World) {
    && |w'.ptrs| == |w.ptrs| && w'.total == w.total
    && (forall i :: Usable(w', i) == Usable(w, i) && FlatPage(w', i) == FlatPage(w, i))
    && (forall id :: id in w.objs ==> id in w'.objs && w'.objs[id].carmIndex == w.objs[id].carmIndex)
  }

  /** Objects present in `w` stay where they are, and dirty if they were. */
  ghost predicate Pinned(w: World, w': World) {
    && (forall id :: id in w.objs && w.objs[id].present ==>
      && id in w'.objs && w'.objs[id].present && w'.objs[id].addr == w.objs[id].addr
      && (w.objs[id].dirty ==> w'.objs[id].dirty))
    && (forall i :: 0 <= i < |w.ptrs| && w.ptrs[i] != 0 ==> i < |w'.ptrs| && w'.ptrs[i] == w.ptrs[i])
  }

  /** A step that keeps every object's index and contents is invisible. */
  lemma SameContents(w: World, w': World)
    requires w'.ptrs == w.ptrs && w'.total == w.total && w'.blank == w.blank && w'.objs.Keys == w.objs.Keys
    requires forall x :: x in w.objs ==>
      w'.objs[x].carmIndex == w.objs[x].carmIndex && Contents(w', w'.objs[x]) == Contents(w, w.objs[x])
    ensures Invisible(w, w')
  {
    hide Contents;
    forall i ensures Usable(w', i) == Usable(w, i) && FlatPage(w', i) == FlatPage(w, i) {}
  }

  lemma AllocatedSame(w: World, i: nat, id: nat)
    requires WorldOk(w) && Usable(w, i) && w.ptrs[i] == 0 && id != 0 && id !in w.objs
    ensures Invisible(w, Allocated(w, i, id)) && Pinned(w, Allocated(w, i, id))
    ensures forall j :: 0 <= j < |w.ptrs| ==> w.ptrs[j] != id
  {
    hide Exceptional, WordOk, ObjectOk;
    var w' := Allocated(w, i, id);
    assert forall j :: 0 <= j < |w.ptrs| ==> w.ptrs[j] != id;
    forall j ensures Usable(w', j) == Usable(w, j) && FlatPage(w', j) == FlatPage(w, j) {}
  }

  lemma AllocatedOk(w: World, i: nat, id: nat)
    requires WorldOk(w) && Usable(w, i) && id != 0 && id !in w.objs
    ensures WorldOk(Allocated(w, i, id)) && Invisible(w, Allocated(w, i, id)) && Pinned(w, Allocated(w, i, id))
    ensures Allocated(w, i, id).ptrs[i] in Allocated(w, i, id).objs
  {
    hide Exceptional, Invisible, Pinned, FlatPage;
    if w.ptrs[i] != 0 { SamePinned(w); return; }
    var w' := Allocated(w, i, id);
    AllocatedSame(w, i, id);
    forall j | Usable(w', j) ensures WordOk(w', j) { assert Usable(w, j) && WordOk(w, j); }
    forall x | x in w'.objs ensures ObjectOk(w', x) { if x != id { assert ObjectOk(w, x); } }
  }

  lemma SamePinned(w: World)
    requires WorldOk(w)
    ensures Invisible(w, w) && Pinned(w, w)
  {}

  lemma LoadedObject(w: World, id: nat, slot: nat, x: nat)
    requires id in w.objs && !w.objs[id].present && slot !in w.local && x in w.objs && ObjectOk(w, x)
    ensures ObjectOk(Loaded(w, id, slot), x)
    ensures Contents(Loaded(w, id, slot), Loaded(w, id, slot).objs[x]) == Contents(w, w.objs[x])
  {}

  lemma LoadedWord(w: World, id: nat, slot: nat, j: nat)
    requires id in w.objs && !w.objs[id].present && slot !in w.local
    requires j < |w.ptrs| == |w.objState| && WordOk(w, j)
    ensures WordOk(Loaded(w, id, slot), j)
  {}

  lemma LoadedSame(w: World, id: nat, slot: nat)
    requires WorldOk(w) && id in w.objs && slot !in w.local && !w.objs[id].present
    ensures Invisible(w, Loaded(w, id, slot))
    ensures forall x :: x in w.objs ==>
      ObjectOk(Loaded(w, id, slot), x) && (w.objs[x].present ==> w.objs[x].addr in w.local)
  {
    hide Exceptional, WordOk;
    var w' := Loaded(w, id, slot);
    forall x | x in w.objs
      ensures ObjectOk(w', x) && Contents(w', w'.objs[x]) == Contents(w, w.objs[x])
      ensures w.objs[x].present ==> w.objs[x].addr in w.local
    {
      LoadedObject(w, id, slot, x);
      assert ObjectOk(w, x);
    }
    SameContents(w, w');
  }

  lemma LoadedOk(w: World, id: nat, slot: nat)
    requires WorldOk(w) && id in w.objs && slot !in w.local
    ensures WorldOk(Loaded(w, id, slot)) && Invisible(w, Loaded(w, id, slot)) && Pinned(w, Loaded(w, id, slot))
    ensures id in Loaded(w, id, slot).objs && Loaded(w, id, slot).objs[id].present
  {
    hide ObjectOk, WordOk, Contents, Exceptional, FlatPage;
    if w.objs[id].present { return; }
    LoadedSame(w, id, slot);
    var w' := Loaded(w, id, slot);
    forall j | Usable(w', j) ensures WordOk(w', j) { assert Usable(w, j); LoadedWord(w, id, slot, j); }
  }

  lemma MarkedSame(w: World, id: nat)
    requires WorldOk(w) && id in w.objs && w.objs[id].present
    ensures Invisible(w, Marked(w, id)) && Pinned(w, Marked(w, id))
    ensures forall x :: x in w.objs ==> ObjectOk(Marked(w, id), x)
  {
    hide Exceptional, WordOk;
    var w' := Marked(w, id);
    forall x | x in w.objs
      ensures ObjectOk(w', x) && Contents(w', w'.objs[x]) == Contents(w, w.objs[x])
    { assert ObjectOk(w, x); }
    SameContents(w, w');
  }

  lemma MarkedOk(w: World, id: nat)
    requires WorldOk(w) && id in w.objs && w.objs[id].present
    ensures WorldOk(Marked(w, id)) && Invisible(w, Marked(w, id)) && Pinned(w, Marked(w, id))
  {
    hide Exceptional, Invisible, Pinned, FlatPage, Contents, ObjectOk;
    MarkedSame(w, id);
    var w' := Marked(w, id);
    forall j | Usable(w', j) ensures WordOk(w', j) { assert Usable(w, j) && WordOk(w, j); }
  }

  lemma StepsCompose(u: World, v: World, w: World)
    requires Invisible(u, v) && Pinned(u, v) && Invisible(v, w) && Pinned(v, w)
    ensures Invisible(u, w) && Pinned(u, w)
  {}

  lemma FetchedOk(w: World, id: nat, slot: nat, mut: bool)
    requires WorldOk(w) && id in w.objs && slot !in w.local
    ensures WorldOk(Fetched(w, id, slot, mut)) && Invisible(w, Fetched(w, id, slot, mut))
    ensures Pinned(w, Fetched(w, id, slot, mut))
  {
    hide WorldOk, Invisible, Pinned, Loaded;
    LoadedOk(w, id, slot);
    if mut {
      MarkedOk(Loaded(w, id, slot), id);
      StepsCompose(w, Loaded(w, id, slot), Fetched(w, id, slot, mut));
    }
  }

  lemma DereffedOk(w: World, i: nat, id: nat, slot: nat, mut: bool, word: nat)
    requires WorldOk(w) && Usable(w, i) && id != 0 && id !in w.objs && slot !in w.local
    requires var w1 := Allocated(w, i, id);
      w1.ptrs[i] in w1.objs && DerefWord(word, Fetched(w1, w1.ptrs[i], slot, mut).objs[w1.ptrs[i]], mut)
    ensures w.ptrs[i] != 0 ==> w.ptrs[i] in w.objs
    ensures var w' := Dereffed(w, i, id, slot, mut, word);
      && WorldOk(w') && Invisible(w, w') && Pinned(w, w')
      && w'.ptrs[i] != 0 && w'.ptrs[i] in w'.objs && w'.objs[w'.ptrs[i]].present
      && w'.objs[w'.ptrs[i]].addr == DataAddr(word) && (mut ==> w'.objs[w'.ptrs[i]].dirty)
  {
    AllocatedOk(w, i, id);
    var w1 := Allocated(w, i, id);
    var o := w1.ptrs[i];
    FetchedOk(w1, o, slot, mut);
    var w2 := Fetched(w1, o, slot, mut);
    StateSetOk(w2, i, word);
    StepsCompose(w, w1, w2);
    StepsCompose(w, w2, Dereffed(w, i, id, slot, mut, word));
  }

  /** Recording a fresh word for an index. */
  lemma StateSetOk(w: World, i: nat, word: nat)
    requires WorldOk(w) && i < w.total
    requires WordOk(w.(objState := w.objState[i := word]), i)
    ensures WorldOk(w.(objState := w.objState[i := word]))
    ensures Invisible(w, w.(objState := w.objState[i := word])) && Pinned(w, w.(objState := w.objState[i := word]))
  {
    var w' := w.(objState := w.objState[i := word]);
    forall x | x in w'.objs ensures ObjectOk(w', x) { assert ObjectOk(w, x); }
    forall j | Usable(w', j) ensures WordOk(w', j) { if j != i { assert WordOk(w, j); } }
  }

  // ----- Evacuation

  /** An evacuated object goes to the far side, written back if and only if it is dirty;
      update_cache_object then records the new word at the object's index. */
  function Evacuated(w: World, id: nat, word: nat): World
    requires id in w.objs
  {
    var o := w.objs[id];
    var w1 := w.(objs := w.objs[id := o.(present := false, dirty := false,
      remote := if o.dirty then Contents(w, o) else o.remote)],
      local := w.local - {o.addr});
    if o.carmIndex < |w.objState| then w1.(objState := w.objState[o.carmIndex := word]) else w1
  }

  lemma EvacuatedSame(w: World, id: nat, word: nat)
    requires WorldOk(w) && id in w.objs && w.objs[id].present
    ensures Invisible(w, Evacuated(w, id, word)) && w.objs[id].carmIndex < |w.ptrs|
    ensures w.ptrs[w.objs[id].carmIndex] == id
    ensures forall x :: x in w.objs ==> ObjectOk(Evacuated(w, id, word), x)
  {
    hide Exceptional, WordOk;
    var w' := Evacuated(w, id, word);
    assert ObjectOk(w, id);
    forall x | x in w.objs
      ensures ObjectOk(w', x) && Contents(w', w'.objs[x]) == Contents(w, w.objs[x])
    { assert ObjectOk(w, x); }
    SameContents(w, w');
  }

  lemma EvacuatedOk(w: World, id: nat, word: nat)
    requires WorldOk(w) && id in w.objs && w.objs[id].present && PresentClear(word)
    ensures WorldOk(Evacuated(w, id, word)) && Invisible(w, Evacuated(w, id, word))
  {
    assert Exceptional(word, false) && Exceptional(word, true);
    hide Exceptional, Invisible, FlatPage, ObjectOk;
    EvacuatedSame(w, id, word);
    var w' := Evacuated(w, id, word);
    forall j | Usable(w', j) ensures WordOk(w', j) {
      assert Usable(w, j) && WordOk(w, j);
      if w.ptrs[j] == id { assert w'.objState[j] == word; }
    }
  }

  // ----- Accesses to local memory

  function Spliced(page: seq<u8>, off: nat, data: seq<u8>): seq<u8>
    requires off + |data| <= |page|
  {
    page[..off] + data + page[off + |data|..]
  }

  function Stored(w: World, addr: nat, off: nat, data: seq<u8>): World
    requires addr in w.local && off + |data| <= |w.local[addr]|
  {
    w.(local := w.local[addr := Spliced(w.local[addr], off, data)])
  }

  /** Index `i` is present at `base`, and dirty if it may be written. */
  ghost predicate Resident(w: World, i: int, base: nat, mut: bool) {
    && Usable(w, i) && w.ptrs[i] != 0 && w.objs[w.ptrs[i]].present && w.objs[w.ptrs[i]].addr == base
    && (mut ==> w.objs[w.ptrs[i]].dirty)
  }

  lemma ResidentPage(w: World, i: int, base: nat, mut: bool)
    requires WorldOk(w) && Resident(w, i, base, mut)
    ensures base in w.local && w.local[base] == FlatPage(w, i) && |FlatPage(w, i)| == OBJ_SIZE
  {
    assert ObjectOk(w, w.ptrs[i]);
  }

  lemma ResidentStays(w: World, w': World, i: int, base: nat, mut: bool)
    requires Resident(w, i, base, mut) && Invisible(w, w') && Pinned(w, w')
    ensures Resident(w', i, base, mut)
  {
    assert Usable(w', i);
  }

  /** A store through a write guard changes exactly that part of that page. */
  lemma StoredOk(w: World, i: int, base: nat, off: nat, data: seq<u8>)
    requires WorldOk(w) && Resident(w, i, base, true) && off + |data| <= OBJ_SIZE
    ensures base in w.local && |w.local[base]| == OBJ_SIZE == |FlatPage(w, i)|
    ensures var w' := Stored(w, base, off, data);
      && WorldOk(w') && (forall j :: Usable(w', j) == Usable(w, j))
      && FlatPage(w', i) == Spliced(FlatPage(w, i), off, data)
      && (forall j :: j != i ==> FlatPage(w', j) == FlatPage(w, j))
      && w'.ptrs == w.ptrs && w'.objs == w.objs
  {
    ResidentPage(w, i, base, true);
    var w', id := Stored(w, base, off, data), w.ptrs[i];
    forall x | x in w'.objs
      ensures ObjectOk(w', x) && (x != id ==> Contents(w', w'.objs[x]) == Contents(w, w.objs[x]))
    { assert ObjectOk(w, x); }
    forall j | Usable(w', j) ensures WordOk(w', j) { assert WordOk(w, j); }
    forall j | j != i ensures FlatPage(w', j) == FlatPage(w, j) {
      if Usable(w, j) && w.ptrs[j] != 0 { assert w.ptrs[j] != id; }
    }
  }

  // ----- Recycling: update_object_list

  /** The object of a fully freed index becomes the object of a new one, at the end of the list. */
  function Recycled(w: World, i: nat): World
    requires i < |w.ptrs| && w.total < |w.ptrs| && w.ptrs[i] in w.objs
  {
    w.(ptrs := w.ptrs[w.total := w.ptrs[i]], objs := w.objs[w.ptrs[i] := w.objs[w.ptrs[i]].(carmIndex := w.total)],
      total := w.total + 1)
  }

  /** Only the two indices involved notice; the stale word at the freed index can never matter again. */
  lemma RecycledOk(w: World, i: nat)
    requires WorldOk(w) && Usable(w, i) && w.ptrs[i] != 0 && w.total < TOTAL_OBJECTS
    ensures w.ptrs[i] in w.objs
    ensures var w' := Recycled(w, i);
      && WorldOk(w') && !Usable(w', i) && Usable(w', w.total) && FlatPage(w', w.total) == FlatPage(w, i)
      && (forall j :: j != i && j != w.total ==> Usable(w', j) == Usable(w, j) && FlatPage(w', j) == FlatPage(w, j))
  {
    hide Exceptional, FlatPage;
    RecycledPages(w, i);
    var w', id, n := Recycled(w, i), w.ptrs[i], w.total;
    forall x | x in w'.objs ensures ObjectOk(w', x) { assert ObjectOk(w, x) && ObjectOk(w, id); }
    forall j | Usable(w', j) ensures WordOk(w', j) {
      if j != n { assert j != i; assert Usable(w, j) && WordOk(w, j); }
    }
  }

  lemma RecycledPages(w: World, i: nat)
    requires WorldOk(w) && Usable(w, i) && w.ptrs[i] != 0 && w.total < TOTAL_OBJECTS
    ensures w.ptrs[i] in w.objs
    ensures var w' := Recycled(w, i);
      && !Usable(w', i) && Usable(w', w.total) && FlatPage(w', w.total) == FlatPage(w, i)
      && (forall j :: j != i && j != w.total ==> Usable(w', j) == Usable(w, j) && FlatPage(w', j) == FlatPage(w, j))
  {
    hide Exceptional, WordOk;
    var w', id, n := Recycled(w, i), w.ptrs[i], w.total;
    forall x | x in w.objs
      ensures Contents(w', w'.objs[x]) == Contents(w, w.objs[x]) && w.objs[x].carmIndex < |w.ptrs|
      ensures w.ptrs[w.objs[x].carmIndex] == x
    {
      assert ObjectOk(w, x);
    }
    hide ObjectOk, Contents;
    forall j | j != i && j != n ensures Usable(w', j) == Usable(w, j) && FlatPage(w', j) == FlatPage(w, j) {}
  }
}
