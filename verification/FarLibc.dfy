/** The runtime object: guarded dereferences and the libc routines that walk far memory object by object. */
module FarLibc {
  import opened FarWorld
  import opened FarRuns
  import opened FarMem

  const UINT32: nat := 0x1_0000_0000

  class FarRuntime {
    var w: World
    var host: map<nat, u8>

    ghost function Now(): Mem
      reads this
    {
      Mem(w, host)
    }

    ghost predicate Valid()
      reads this
    {
      WorldOk(w)
    }

    /** carm_deref_read and carm_deref_write; AIFM chooses freely within its contract. */
    method CarmDeref(i: nat, mut: bool) returns (base: nat)
      requires Valid() && Usable(w, i)
      modifies this`w
      ensures Valid() && Invisible(old(w), w) && Pinned(old(w), w) && Resident(w, i, base, mut)
    {
      ghost var witnessed := OracleExists(w, i, mut);
      var o: Oracle :| OracleOk(w, i, mut, o);
      assert OracleOk(w, i, mut, o);
      DereffedOk(w, i, o.id, o.slot, mut, o.word);
      w := Dereffed(w, i, o.id, o.slot, mut, o.word);
      base := DataAddr(o.word);
    }

    /** _ptrDeref, without the final addition of the offset. */
    method PtrDeref(p: CarmPtr) returns (base: nat)
      requires Valid() && Usable(w, p.objIndex)
      modifies this`w
      ensures Valid() && Invisible(old(w), w) && Pinned(old(w), w) && Resident(w, p.objIndex, base, p.mut)
      ensures SameMemory(old(Now()), Now())
    {
      var metadata := w.objState[p.objIndex];
      if Exceptional(metadata, p.mut) {
        base := CarmDeref(p.objIndex, p.mut);
      } else {
        assert WordOk(w, p.objIndex);
        base := DataAddr(metadata);
      }
      InvisibleSame(old(Now()), Now());
    }

    /** The evacuator takes an object out of local memory. */
    method Evacuate(id: nat, word: nat)
      requires Valid() && id in w.objs && w.objs[id].present && PresentClear(word)
      modifies this`w
      ensures Valid() && SameMemory(old(Now()), Now())
    {
      EvacuatedOk(w, id, word);
      w := Evacuated(w, id, word);
      InvisibleSame(old(Now()), Now());
    }

    predicate OnHost(a: int, n: int)
      reads this
    {
      forall x: nat :: a <= x < a + n ==> x in host
    }

    lemma HostRegion(a: nat, n: nat)
      requires Region(Now(), a, n) && a + n <= CARM_PTR
      ensures OnHost(a, n)
    {
      forall x: nat | a <= x < a + n ensures x in host { assert Mapped(Now(), x); }
    }

    // ----- One chunk of local memory

    /** Reading `n` bytes through a guarded pointer. */
    method LoadChunk(p: CarmPtr, base: nat, n: nat) returns (data: seq<u8>)
      requires Valid() && Resident(w, p.objIndex, base, p.mut) && p.offset + n <= OBJ_SIZE
      ensures |data| == n && Shows(Now(), Joined(p.objIndex, p.offset), data)
    {
      LoadMeaning(Now(), p.objIndex, base, p.mut, p.offset, n);
      data := w.local[base][p.offset..p.offset + n];
    }

    /** Writing through a pointer that passed the write guard. */
    method StoreChunk(p: CarmPtr, base: nat, data: seq<u8>)
      requires Valid() && Resident(w, p.objIndex, base, true) && p.offset + |data| <= OBJ_SIZE
      modifies this`w
      ensures Valid() && WroteAt(old(Now()), Now(), Joined(p.objIndex, p.offset), data)
    {
      StoreMeaning(Now(), p.objIndex, base, p.offset, data);
      w := Stored(w, base, p.offset, data);
    }

    method HostLoad(a: nat, n: nat) returns (data: seq<u8>)
      requires a + n <= CARM_PTR && OnHost(a, n)
      ensures |data| == n && Shows(Now(), a, data)
    {
      data := seq(n, j requires 0 <= j < n && a + j in host reads this => host[a + j]);
    }

    method HostStore(a: nat, data: seq<u8>)
      requires Valid() && a + |data| <= CARM_PTR && OnHost(a, |data|)
      modifies this`host
      ensures WroteAt(old(Now()), Now(), a, data) && host.Keys == old(host.Keys)
    {
      host := host + map x | x in host && a <= x < a + |data| :: data[x - a];
    }

    // ----- memcpy

    /** _carm_memcpy_dst_carm_ptr: a host source, a far destination. */
    method MemcpyDstCarm(dst: nat, src: nat, size: nat)
      requires Valid() && CARM_PTR <= dst && src + size <= CARM_PTR
      requires Region(Now(), dst, size) && Region(Now(), src, size) && size < UINT32 - OBJ_SIZE
      modifies this`w
      ensures Valid() && Copied(old(Now()), Now(), dst, src, size)
    {
      hide WorldOk, Copied, WroteAt, Shows, GetCarmPtr;
      ghost var m := Now();
      SplitAt(dst, true);
      var p := GetCarmPtr(dst, true);
      var transferred := 0;
      HostRegion(src, size);
      CopyNothing(m, dst, src);
      while transferred < size
        invariant transferred <= size && Valid() && p.offset < OBJ_SIZE && p.mut
        invariant transferred < size ==> Joined(p.objIndex, p.offset) == dst + transferred
        invariant Copied(m, Now(), dst, src, transferred)
        decreases size - transferred
      {
        ghost var before := Now();
        FarUsable(m, before, dst, src, transferred, p.objIndex, p.offset, dst, size);
        var base := PtrDeref(p);
        CopiedThenSame(m, before, Now(), dst, src, transferred);
        var chunk := OBJ_SIZE - p.offset;
        assert transferred + chunk < UINT32;
        var n := if transferred + chunk < size then chunk else size - transferred;
        var data := HostLoad(src + transferred, n);
        ghost var m' := Now();
        StoreChunk(p, base, data);
        CopyStep(m, m', Now(), dst, src, transferred, data);
        transferred := transferred + n;
        p := p.(objIndex := p.objIndex + 1, offset := 0);
      }
    }

    /** _carm_memcpy_src_carm_ptr: a far source, a host destination. */
    method MemcpySrcCarm(dst: nat, src: nat, size: nat)
      requires Valid() && CARM_PTR <= src && dst + size <= CARM_PTR
      requires Region(Now(), dst, size) && Region(Now(), src, size) && size < UINT32 - OBJ_SIZE
      modifies this`w, this`host
      ensures Valid() && Copied(old(Now()), Now(), dst, src, size)
    {
      hide WorldOk, Copied, WroteAt, Shows, GetCarmPtr;
      ghost var m := Now();
      SplitAt(src, false);
      var p := GetCarmPtr(src, false);
      var transferred := 0;
      HostRegion(dst, size);
      CopyNothing(m, dst, src);
      while transferred < size
        invariant transferred <= size && Valid() && p.offset < OBJ_SIZE && host.Keys == old(host.Keys)
        invariant transferred < size ==> Joined(p.objIndex, p.offset) == src + transferred
        invariant Copied(m, Now(), dst, src, transferred)
        decreases size - transferred
      {
        ghost var before := Now();
        FarUsable(m, before, dst, src, transferred, p.objIndex, p.offset, src, size);
        var base := PtrDeref(p);
        CopiedThenSame(m, before, Now(), dst, src, transferred);
        var chunk := OBJ_SIZE - p.offset;
        assert transferred + chunk < UINT32;
        var n := if transferred + chunk < size then chunk else size - transferred;
        var data := LoadChunk(p, base, n);
        ghost var m' := Now();
        HostStore(dst + transferred, data);
        CopyStep(m, m', Now(), dst, src, transferred, data);
        transferred := transferred + n;
        p := p.(objIndex := p.objIndex + 1, offset := 0);
      }
    }

    /** The loop of carm_memcpy between two far regions: each chunk stops at the first object boundary of either. */
    method MemcpyBothCarm(dst: nat, src: nat, size: nat)
      requires Valid() && CARM_PTR <= dst && CARM_PTR <= src && (dst <= src || src + size <= dst)
      requires Region(Now(), dst, size) && Region(Now(), src, size) && size < UINT32 - OBJ_SIZE
      modifies this`w
      ensures Valid() && Copied(old(Now()), Now(), dst, src, size)
    {
      hide WorldOk, Copied, WroteAt, Shows, Invisible, Pinned, Resident, GetCarmPtr;
      ghost var m := Now();
      var transferred := 0;
      CopyNothing(m, dst, src);
      while transferred < size
        invariant transferred <= size && Valid()
        invariant Copied(m, Now(), dst, src, transferred)
        decreases size - transferred
      {
        SplitAt(dst + transferred, true);
        SplitAt(src + transferred, false);
        var d, s := GetCarmPtr(dst + transferred, true), GetCarmPtr(src + transferred, false);
        ghost var before := Now();
        FarUsable(m, before, dst, src, transferred, d.objIndex, d.offset, dst, size);
        var dstBase := PtrDeref(d);
        ghost var between := Now();
        CopiedThenSame(m, before, between, dst, src, transferred);
        FarUsable(m, between, dst, src, transferred, s.objIndex, s.offset, src, size);
        var srcBase := PtrDeref(s);
        CopiedThenSame(m, between, Now(), dst, src, transferred);
        ResidentStays(between.w, w, d.objIndex, dstBase, true);
        var sizeDst, sizeSrc := OBJ_SIZE - d.offset, OBJ_SIZE - s.offset;
        var chunk := if sizeDst < sizeSrc then sizeDst else sizeSrc;
        assert chunk != 0 && transferred + chunk < UINT32;
        var n := if transferred + chunk < size then chunk else size - transferred;
        var data := LoadChunk(s, srcBase, n);
        ghost var m' := Now();
        StoreChunk(d, dstBase, data);
        CopyStep(m, m', Now(), dst, src, transferred, data);
        transferred := transferred + n;
      }
    }

    /** memmove between host regions. */
    method HostMove(dst: nat, src: nat, size: nat)
      requires Valid() && dst + size <= CARM_PTR && src + size <= CARM_PTR && Region(Now(), dst, size)
      requires Region(Now(), src, size)
      modifies this`host
      ensures Valid() && Copied(old(Now()), Now(), dst, src, size)
    {
      hide Mapped, ByteAt, Region;
      HostRegion(src, size);
      HostRegion(dst, size);
      ghost var m := Now();
      var data := HostLoad(src, size);
      HostStore(dst, data);
      MoveMeaning(m, Now(), dst, src, data);
    }

    /** carm_memcpy, wherever its arguments are; far regions may overlap only downwards. */
    method CarmMemcpy(dst: nat, src: nat, size: nat)
      requires Valid() && Region(Now(), dst, size) && Region(Now(), src, size) && size < UINT32 - OBJ_SIZE
      requires CARM_PTR <= dst && CARM_PTR <= src ==> dst <= src || src + size <= dst
      modifies this`w, this`host
      ensures Valid() && Copied(old(Now()), Now(), dst, src, size)
      ensures CARM_PTR <= dst ==> host == old(host)
    {
      hide WorldOk, Copied;
      FarOrHost(Now(), dst, size);
      FarOrHost(Now(), src, size);
      if !CheckCarmObject(dst) && !CheckCarmObject(src) {
        HostMove(dst, src, size);
      } else if CheckCarmObject(dst) && !CheckCarmObject(src) {
        MemcpyDstCarm(dst, src, size);
      } else if !CheckCarmObject(dst) && CheckCarmObject(src) {
        MemcpySrcCarm(dst, src, size);
      } else {
        MemcpyBothCarm(dst, src, size);
      }
    }

    // ----- memset

    method MemsetCarm(dst: nat, b: u8, size: nat)
      requires Valid() && CARM_PTR <= dst < 2 * CARM_PTR && Region(Now(), dst, size) && size < UINT32 - OBJ_SIZE
      modifies this`w
      ensures Valid() && Filled(old(Now()), Now(), dst, b, size)
    {
      hide WorldOk, Filled, WroteAt, Mapped, ByteAt, Region, SameMemory, GetCarmPtr;
      ghost var m := Now();
      FillNothing(m, dst, b);
      SplitAt(dst, true);
      var p := GetCarmPtr(dst, true);
      var bytesSet := 0;
      while bytesSet < size
        invariant Valid() && p.offset < OBJ_SIZE && p.mut && bytesSet < size + OBJ_SIZE
        invariant bytesSet < size ==> Joined(p.objIndex, p.offset) == dst + bytesSet
        invariant Filled(m, Now(), dst, b, if bytesSet < size then bytesSet else size)
        decreases size - bytesSet
      {
        ghost var before := Now();
        FillUsable(m, before, dst, b, bytesSet, p.objIndex, p.offset, size);
        var base := PtrDeref(p);
        FilledThenSame(m, before, Now(), dst, b, bytesSet);
        var chunk := OBJ_SIZE - p.offset;
        assert chunk != 0 && bytesSet + chunk < UINT32;
        var n := if bytesSet + chunk < size then chunk else size - bytesSet;
        ghost var m' := Now();
        StoreChunk(p, base, seq(n, _ => b));
        FillStep(m, m', Now(), dst, b, bytesSet, n);
        bytesSet := bytesSet + chunk;
        p := p.(objIndex := p.objIndex + 1, offset := 0);
      }
    }

    /** carm_memset; `c` is converted to unsigned char. */
    method CarmMemset(dst: nat, c: int, size: nat)
      requires Valid() && Region(Now(), dst, size) && size < UINT32 - OBJ_SIZE
      modifies this`w, this`host
      ensures Valid() && Filled(old(Now()), Now(), dst, (c % 256) as u8, size)
      ensures CARM_PTR <= dst ==> host == old(host)
    {
      hide WorldOk, Filled, WroteAt, Mapped, ByteAt, GetCarmPtr;
      ghost var m := Now();
      FarOrHost(m, dst, size);
      var b := (c % 256) as u8;
      if !CheckCarmObject(dst) {
        HostRegion(dst, size);
        HostStore(dst, seq(size, _ => b));
        FillNothing(m, dst, b);
        FillStep(m, m, Now(), dst, b, 0, size);
      } else {
        MemsetCarm(dst, b, size);
      }
    }

    // ----- memcmp

    method CompareSrcChunk(ghost m: Mem, dst: nat, src: nat, p: CarmPtr, k: nat, n: nat, ghost size: nat)
      returns (ret: int)
      requires Valid() && SameMemory(m, Now()) && Compare(m, dst, src, k) == 0 && 0 < n && k + n <= size
      requires CARM_PTR <= src && p.offset + n <= OBJ_SIZE && Joined(p.objIndex, p.offset) == src + k && !p.mut
      requires Region(m, src, size) && OnHost(dst, size) && dst + size <= CARM_PTR
      modifies this`w
      ensures Valid() && SameMemory(m, Now())
      ensures ret == Compare(m, dst, src, k + n) && (ret != 0 ==> ret == Compare(m, dst, src, size))
    {
      hide WorldOk, Shows, Mapped, ByteAt, Region, SameMemory, Invisible, Pinned, Resident, Compare, CompareBytes;
      hide Usable, GetCarmPtr;
      ghost var before := Now();
      SameUsable(m, before, p.objIndex, p.offset, src, size);
      var base := PtrDeref(p);
      SameTrans(m, before, Now());
      var d := HostLoad(dst + k, n);
      var s := LoadChunk(p, base, n);
      ret := CompareBytes(d, s);
      CompareChunk(m, Now(), dst, src, k, d, s, size);
    }

    /** _carm_memcmp_src_carm_ptr. */
    method MemcmpSrcCarm(dst: nat, src: nat, size: nat) returns (ret: int)
      requires Valid() && CARM_PTR <= src < 2 * CARM_PTR && dst + size <= CARM_PTR
      requires Region(Now(), dst, size) && Region(Now(), src, size) && size < UINT32 - OBJ_SIZE
      modifies this`w
      ensures Valid() && SameMemory(old(Now()), Now()) && ret == Compare(old(Now()), dst, src, size)
    {
      hide WorldOk, Mapped, ByteAt, Region, SameMemory, Compare, GetCarmPtr;
      ghost var m := Now();
      HostRegion(dst, size);
      CompareNothing(m, dst, src);
      SplitAt(src, false);
      SameRefl(m);
      var p := GetCarmPtr(src, false);
      var bytesRead := 0;
      ret := 0;
      while bytesRead < size
        invariant bytesRead <= size && Valid() && p.offset < OBJ_SIZE && !p.mut
        invariant ret == 0 == Compare(m, dst, src, bytesRead)
        invariant bytesRead < size ==> Joined(p.objIndex, p.offset) == src + bytesRead
        invariant SameMemory(m, Now())
        decreases size - bytesRead
      {
        var chunk := OBJ_SIZE - p.offset;
        assert bytesRead + chunk < UINT32;
        var n := if bytesRead + chunk < size then chunk else size - bytesRead;
        ret := CompareSrcChunk(m, dst, src, p, bytesRead, n, size);
        if ret != 0 {
          return;
        }
        bytesRead := bytesRead + n;
        p := p.(objIndex := p.objIndex + 1, offset := 0);
      }
    }

    method CompareDstChunk(ghost m: Mem, dst: nat, src: nat, p: CarmPtr, k: nat, n: nat, ghost size: nat,
                           ghost reach: nat) returns (ret: int)
      requires Valid() && SameMemory(m, Now()) && Compare(m, dst, src, k) == 0 && 0 < n && k + n <= size
      requires CARM_PTR <= dst && p.offset + n <= OBJ_SIZE && Joined(p.objIndex, p.offset) == dst + k && !p.mut
      requires Region(m, dst, reach) && k < reach && OnHost(src, size) && src + size <= CARM_PTR
      modifies this`w
      ensures Valid() && SameMemory(m, Now())
      ensures ret == Compare(m, dst, src, k + n) && (ret != 0 ==> ret == Compare(m, dst, src, size))
    {
      hide WorldOk, Shows, Mapped, ByteAt, Region, SameMemory, Invisible, Pinned, Resident, Compare, CompareBytes;
      hide Usable, GetCarmPtr;
      ghost var before := Now();
      SameUsable(m, before, p.objIndex, p.offset, dst, reach);
      var base := PtrDeref(p);
      SameTrans(m, before, Now());
      var d := LoadChunk(p, base, n);
      var s := HostLoad(src + k, n);
      ret := CompareBytes(d, s);
      CompareChunk(m, Now(), dst, src, k, d, s, size);
    }

    /** _carm_memcmp_dst_carm_ptr. */
    method MemcmpDstCarm(dst: nat, src: nat, size: nat, ghost reach: nat) returns (ret: int)
      requires Valid() && CARM_PTR <= dst < 2 * CARM_PTR && src + size <= CARM_PTR
      requires Region(Now(), dst, reach) && Decided(Now(), dst, src, reach, size) && Region(Now(), src, size)
      requires size < UINT32 - OBJ_SIZE
      modifies this`w
      ensures Valid() && SameMemory(old(Now()), Now()) && ret == Compare(old(Now()), dst, src, size)
    {
      hide WorldOk, Mapped, ByteAt, Region, SameMemory, Compare, GetCarmPtr, Decided;
      ghost var m := Now();
      HostRegion(src, size);
      CompareNothing(m, dst, src);
      SplitAt(dst, false);
      SameRefl(m);
      var p := GetCarmPtr(dst, false);
      var bytesRead := 0;
      ret := 0;
      while bytesRead < size
        invariant bytesRead <= size && Valid() && p.offset < OBJ_SIZE && !p.mut
        invariant ret == 0 == Compare(m, dst, src, bytesRead)
        invariant bytesRead < size ==> Joined(p.objIndex, p.offset) == dst + bytesRead
        invariant SameMemory(m, Now())
        decreases size - bytesRead
      {
        Undecided(m, dst, src, bytesRead, reach, size);
        var chunk := OBJ_SIZE - p.offset;
        assert bytesRead + chunk < UINT32;
        var n := if bytesRead + chunk < size then chunk else size - bytesRead;
        ret := CompareDstChunk(m, dst, src, p, bytesRead, n, size, reach);
        if ret != 0 {
          return;
        }
        bytesRead := bytesRead + n;
        p := p.(objIndex := p.objIndex + 1, offset := 0);
      }
    }

    method CompareBothChunk(ghost m: Mem, dst: nat, src: nat, pd: CarmPtr, ps: CarmPtr, k: nat, n: nat, ghost size: nat,
                            ghost reach: nat) returns (ret: int)
      requires Valid() && SameMemory(m, Now()) && Compare(m, dst, src, k) == 0 && 0 < n && k + n <= size
      requires CARM_PTR <= dst && pd.offset + n <= OBJ_SIZE && Joined(pd.objIndex, pd.offset) == dst + k && !pd.mut
      requires CARM_PTR <= src && ps.offset + n <= OBJ_SIZE && Joined(ps.objIndex, ps.offset) == src + k && !ps.mut
      requires Region(m, dst, reach) && k < reach && Region(m, src, size)
      modifies this`w
      ensures Valid() && SameMemory(m, Now())
      ensures ret == Compare(m, dst, src, k + n) && (ret != 0 ==> ret == Compare(m, dst, src, size))
    {
      hide WorldOk, Shows, Mapped, ByteAt, Region, SameMemory, Invisible, Pinned, Resident, Compare, CompareBytes;
      hide Usable, GetCarmPtr;
      ghost var before := Now();
      SameUsable(m, before, pd.objIndex, pd.offset, dst, reach);
      var dstBase := PtrDeref(pd);
      ghost var between := Now();
      SameTrans(m, before, between);
      SameUsable(m, between, ps.objIndex, ps.offset, src, size);
      var srcBase := PtrDeref(ps);
      SameTrans(m, between, Now());
      ResidentStays(between.w, w, pd.objIndex, dstBase, false);
      var d := LoadChunk(pd, dstBase, n);
      var s := LoadChunk(ps, srcBase, n);
      ret := CompareBytes(d, s);
      CompareChunk(m, Now(), dst, src, k, d, s, size);
    }

    /** The loop of carm_memcmp between two far regions. */
    method MemcmpBothCarm(dst: nat, src: nat, size: nat, ghost reach: nat) returns (ret: int)
      requires Valid() && CARM_PTR <= dst < 2 * CARM_PTR && CARM_PTR <= src < 2 * CARM_PTR
      requires Region(Now(), dst, reach) && Decided(Now(), dst, src, reach, size) && Region(Now(), src, size)
      requires size < UINT32 - OBJ_SIZE
      modifies this`w
      ensures Valid() && SameMemory(old(Now()), Now()) && ret == Compare(old(Now()), dst, src, size)
    {
      hide WorldOk, Mapped, ByteAt, Region, SameMemory, Compare, GetCarmPtr, Decided;
      ghost var m := Now();
      FarOrHost(m, dst, reach);
      FarOrHost(m, src, size);
      CompareNothing(m, dst, src);
      SameRefl(m);
      var bytesRead := 0;
      ret := 0;
      while bytesRead < size
        invariant Valid() && bytesRead <= size && ret == 0 == Compare(m, dst, src, bytesRead)
        invariant SameMemory(m, Now())
        decreases size - bytesRead
      {
        Undecided(m, dst, src, bytesRead, reach, size);
        SplitAt(dst + bytesRead, false);
        SplitAt(src + bytesRead, false);
        var pd, ps := GetCarmPtr(dst + bytesRead, false), GetCarmPtr(src + bytesRead, false);
        var sizeDst, sizeSrc := OBJ_SIZE - pd.offset, OBJ_SIZE - ps.offset;
        var chunk := if sizeDst < sizeSrc then sizeDst else sizeSrc;
        assert chunk != 0 && bytesRead + chunk < UINT32;
        var n := if bytesRead + chunk < size then chunk else size - bytesRead;
        ret := CompareBothChunk(m, dst, src, pd, ps, bytesRead, n, size, reach);
        if ret != 0 {
          return;
        }
        bytesRead := bytesRead + n;
      }
    }

    /** carm_memcmp. Of a far destination only the first `reach` bytes need to be mapped, if they decide. */
    method CarmMemcmp(dst: nat, src: nat, size: nat, ghost reach: nat) returns (ret: int)
      requires Valid() && Region(Now(), dst, reach) && Decided(Now(), dst, src, reach, size) && Region(Now(), src, size)
      requires size < UINT32 - OBJ_SIZE && (dst < CARM_PTR ==> reach == size)
      modifies this`w
      ensures Valid() && SameMemory(old(Now()), Now()) && ret == Compare(old(Now()), dst, src, size)
    {
      hide WorldOk, Compare, SameMemory, GetCarmPtr, Decided;
      ghost var m := Now();
      FarOrHost(m, dst, reach);
      FarOrHost(m, src, size);
      SameRefl(m);
      if !CheckCarmObject(dst) && !CheckCarmObject(src) {
        HostRegion(dst, size);
        HostRegion(src, size);
        var d := HostLoad(dst, size);
        var s := HostLoad(src, size);
        ret := CompareBytes(d, s);
        CompareBytesMeaning(m, dst, src, d, s);
      } else if CheckCarmObject(dst) && !CheckCarmObject(src) {
        ret := MemcmpDstCarm(dst, src, size, reach);
      } else if !CheckCarmObject(dst) && CheckCarmObject(src) {
        ret := MemcmpSrcCarm(dst, src, size);
      } else {
        ret := MemcmpBothCarm(dst, src, size, reach);
      }
    }

    // ----- Strings

    /** The inner loop of carm_strlen: the position of the first NUL of a chunk, or its size. */
    method ScanChunk(data: seq<u8>) returns (j: nat)
      ensures j <= |data| && (forall k :: 0 <= k < j ==> data[k] != 0) && (j < |data| ==> data[j] == 0)
    {
      j := 0;
      while j < |data| && data[j] != 0
        invariant j <= |data| && forall k :: 0 <= k < j ==> data[k] != 0
      {
        j := j + 1;
      }
    }

    /** The loop of carm_strlen. */
    method StrlenCarm(s: nat, ghost size: nat) returns (len: nat)
      requires Valid() && CARM_PTR <= s < 2 * CARM_PTR && StringAt(Now(), s, size) && Region(Now(), s, size + 1)
      modifies this`w
      ensures Valid() && SameMemory(old(Now()), Now()) && len == size
    {
      ghost var m := Now();
      hide WorldOk, Shows, Mapped, ByteAt, Region, SameMemory, Invisible, Pinned, Resident, StringAt, GetCarmPtr;
      SplitAt(s, false);
      SameRefl(m);
      var p := GetCarmPtr(s, false);
      len := 0;
      while true
        invariant len <= size && Valid() && p.offset < OBJ_SIZE
        invariant Joined(p.objIndex, p.offset) == s + len && !p.mut
        invariant SameMemory(m, Now())
        decreases size - len
      {
        ghost var before := Now();
        SameUsable(m, before, p.objIndex, p.offset, s, size + 1);
        var base := PtrDeref(p);
        SameTrans(m, before, Now());
        var data := LoadChunk(p, base, OBJ_SIZE - p.offset);
        var j := ScanChunk(data);
        ScanMeaning(m, Now(), s, size, len, data, j);
        if j < |data| {
          len := len + j;
          return;
        }
        len := len + |data|;
        p := p.(objIndex := p.objIndex + 1, offset := 0);
      }
    }

    /** carm_strlen. */
    method CarmStrlen(s: nat, ghost size: nat) returns (len: nat)
      requires Valid() && StringAt(Now(), s, size) && Region(Now(), s, size + 1)
      modifies this`w
      ensures Valid() && SameMemory(old(Now()), Now()) && len == size
    {
      hide WorldOk, StringAt, SameMemory, Mapped, ByteAt, GetCarmPtr;
      ghost var m := Now();
      FarOrHost(m, s, size + 1);
      SameRefl(m);
      if !CheckCarmObject(s) {
        HostRegion(s, size + 1);
        len := HostStrlen(s, size);
      } else {
        len := StrlenCarm(s, size);
      }
    }

    /** strlen. */
    method HostStrlen(s: nat, ghost size: nat) returns (len: nat)
      requires s + size + 1 <= CARM_PTR && OnHost(s, size + 1) && StringAt(Now(), s, size)
      ensures len == size
    {
      len := 0;
      while host[s + len] != 0
        invariant len <= size
        decreases size - len
      {
        assert ByteAt(Now(), s + len) != 0;
        len := len + 1;
      }
      assert ByteAt(Now(), s + len) == 0;
    }

    /** carm_strcpy on strings shorter than an int can count. */
    method CarmStrcpy(d: nat, s: nat, ghost size: nat)
      requires Valid() && StringAt(Now(), s, size) && size + 1 < 0x8000_0000
      requires Region(Now(), s, size + 1) && Region(Now(), d, size + 1)
      requires d + size + 1 <= s || s + size + 1 <= d
      modifies this`w, this`host
      ensures Valid() && Copied(old(Now()), Now(), d, s, size + 1) && StringAt(Now(), d, size)
    {
      hide WorldOk, StringAt, SameMemory, Mapped, ByteAt, Region, Copied, GetCarmPtr;
      ghost var m := Now();
      var len := CarmStrlen(s, size);
      ghost var m' := Now();
      SameRegion(m, m', d, size + 1);
      SameRegion(m, m', s, size + 1);
      CarmMemcpy(d, s, len + 1);
      SameThenCopied(m, m', Now(), d, s, size + 1);
      CopiedString(m, Now(), d, s, size);
    }

    /** strcmp. */
    method HostStrcmp(d: nat, s: nat, ghost size: nat, ghost reach: nat) returns (ret: int)
      requires d + reach <= CARM_PTR && s + size + 1 <= CARM_PTR && OnHost(d, reach) && OnHost(s, size + 1)
      requires StringAt(Now(), s, size) && Decided(Now(), d, s, reach, size + 1)
      ensures ret == StrCompare(Now(), d, s, size + 1)
    {
      hide Compare, StringAt, Decided, Mapped;
      ghost var m := Now();
      var i := 0;
      CompareNothing(m, d, s);
      Undecided(m, d, s, i, reach, size + 1);
      StringEnds(m, s, size, i);
      HostBytes(d + i);
      HostBytes(s + i);
      while host[d + i] == host[s + i] && host[s + i] != 0
        invariant i <= size && i < reach && Compare(m, d, s, i) == 0
        invariant ByteAt(m, d + i) == host[d + i] && ByteAt(m, s + i) == host[s + i]
        invariant StrCompare(m, d, s, size + 1) == StrCompare(m, d + i, s + i, size + 1 - i)
        decreases size - i
      {
        StringEnds(m, s, size, i);
        CompareOn(m, d, s, i);
        i := i + 1;
        Undecided(m, d, s, i, reach, size + 1);
        HostBytes(d + i);
        HostBytes(s + i);
      }
      ret := host[d + i] as int - host[s + i] as int;
    }

    lemma HostBytes(a: nat)
      requires a in host && a < CARM_PTR
      ensures ByteAt(Now(), a) == host[a]
    {}

    /** carm_strcmp compares strlen(s) + 1 bytes and still orders the strings. A destination other than a host string
        against a far one needs to be mapped only as far as it takes to decide. */
    method CarmStrcmp(d: nat, s: nat, ghost size: nat, ghost reach: nat) returns (ret: int)
      requires Valid() && StringAt(Now(), s, size) && size + 1 < 0x8000_0000 && Region(Now(), s, size + 1)
      requires Region(Now(), d, reach) && Decided(Now(), d, s, reach, size + 1)
      requires d < CARM_PTR <= s ==> reach == size + 1
      modifies this`w
      ensures Valid() && SameMemory(old(Now()), Now()) && ret == StrCompare(old(Now()), d, s, size + 1)
    {
      hide WorldOk, StringAt, SameMemory, Mapped, ByteAt, Region, Compare, StrCompare, GetCarmPtr, Decided;
      ghost var m := Now();
      FarOrHost(m, d, reach);
      FarOrHost(m, s, size + 1);
      if !CheckCarmObject(d) && !CheckCarmObject(s) {
        HostRegion(d, reach);
        HostRegion(s, size + 1);
        SameRefl(m);
        ret := HostStrcmp(d, s, size, reach);
        return;
      }
      var len := CarmStrlen(s, size);
      ghost var m' := Now();
      SameRegion(m, m', d, reach);
      SameRegion(m, m', s, size + 1);
      SameDecided(m, m', d, s, reach, size + 1);
      ret := CarmMemcmp(d, s, len + 1, reach);
      SameTrans(m, m', Now());
      CompareFrame(m, m', d, s, size + 1);
      CompareIsStrCompare(m, d, s, size);
    }
  }

  /** The first `reach` bytes decide the comparison of `size` bytes. */
  ghost predicate Decided(m: Mem, dst: int, src: int, reach: nat, size: nat) {
    reach <= size && (reach == size || Compare(m, dst, src, reach) != 0)
  }

  lemma Undecided(m: Mem, dst: int, src: int, k: nat, reach: nat, size: nat)
    requires Decided(m, dst, src, reach, size) && Compare(m, dst, src, k) == 0 && k < size
    ensures k < reach
  {
    if k >= reach { CompareSplit(m, dst, src, reach, k - reach); }
  }

  lemma SameDecided(m: Mem, m': Mem, dst: int, src: int, reach: nat, size: nat)
    requires SameMemory(m, m') && Decided(m, dst, src, reach, size)
    ensures Decided(m', dst, src, reach, size)
  {
    CompareFrame(m, m', dst, src, reach);
  }

  lemma CompareOn(m: Mem, dst: int, src: int, k: nat)
    requires Compare(m, dst, src, k) == 0 && ByteAt(m, dst + k) == ByteAt(m, src + k)
    ensures Compare(m, dst, src, k + 1) == 0
  {
    CompareSplit(m, dst, src, k, 1);
  }

  lemma StringEnds(m: Mem, s: int, size: nat, k: nat)
    requires StringAt(m, s, size) && k <= size
    ensures ByteAt(m, s + k) == 0 <==> k == size
  {}

  /** A far string that ends earlier than `s` does is compared without touching what lies behind it. */
  lemma ShorterDecides(m: Mem, d: int, s: int, own: nat, size: nat)
    requires StringAt(m, d, own) && StringAt(m, s, size)
    ensures Decided(m, d, s, if own < size then own + 1 else size + 1, size + 1)
  {
    if own < size { CompareTail(m, d, s, own); }
  }

  lemma {:induction false} CompareTail(m: Mem, d: int, s: int, k: nat)
    requires ByteAt(m, d + k) != ByteAt(m, s + k)
    ensures Compare(m, d, s, k + 1) != 0
    decreases k
  {
    if k > 0 {
      assert ByteAt(m, d + 1 + (k - 1)) != ByteAt(m, s + 1 + (k - 1));
      CompareTail(m, d + 1, s + 1, k - 1);
    }
  }

  lemma CompareNothing(m: Mem, dst: int, src: int)
    ensures Compare(m, dst, src, 0) == 0
  {}

  lemma SameRefl(m: Mem)
    ensures SameMemory(m, m)
  {}

  lemma SameRegion(m: Mem, m': Mem, a: int, n: int)
    requires SameMemory(m, m') && Region(m, a, n)
    ensures Region(m', a, n)
  {
    hide Mapped, ByteAt;
  }

  lemma SameThenCopied(m: Mem, m': Mem, m'': Mem, dst: int, src: int, n: int)
    requires SameMemory(m, m') && Copied(m', m'', dst, src, n)
    ensures Copied(m, m'', dst, src, n)
  {
    hide Mapped, ByteAt;
  }

  lemma CopiedString(m: Mem, m': Mem, dst: int, src: int, len: int)
    requires Copied(m, m', dst, src, len + 1) && StringAt(m, src, len)
    ensures StringAt(m', dst, len)
  {
    hide Mapped, ByteAt;
  }

  lemma SameUsable(m: Mem, m': Mem, i: nat, off: nat, start: nat, size: nat)
    requires SameMemory(m, m') && Region(m, start, size) && CARM_PTR <= start && off < OBJ_SIZE
    requires start <= Joined(i, off) < start + size
    ensures Usable(m'.w, i)
  {
    assert Mapped(m, Joined(i, off)) && Mapped(m', Joined(i, off));
    assert (Joined(i, off) - CARM_PTR) / OBJ_SIZE == i;
  }

  /** One chunk of memcmp: it settles the comparison, or the bytes so far are equal. */
  lemma CompareChunk(m: Mem, m': Mem, dst: int, src: int, k: nat, x: seq<u8>, y: seq<u8>, size: nat)
    requires SameMemory(m, m') && Compare(m, dst, src, k) == 0 && |x| == |y| && k + |x| <= size
    requires Shows(m', dst + k, x) && Shows(m', src + k, y)
    ensures Compare(m, dst, src, k + |x|) == CompareBytes(x, y)
    ensures CompareBytes(x, y) != 0 ==> Compare(m, dst, src, size) == CompareBytes(x, y)
  {
    hide Shows, SameMemory, Compare, CompareBytes;
    CompareBytesMeaning(m', dst + k, src + k, x, y);
    CompareFrame(m, m', dst + k, src + k, |x|);
    CompareSplit(m, dst, src, k, |x|);
    CompareSplit(m, dst, src, k + |x|, size - (k + |x|));
  }

  /** A scanned chunk holds the end of the string, or lies before it. */
  lemma ScanMeaning(m: Mem, m': Mem, s: nat, size: nat, k: nat, data: seq<u8>, j: nat)
    requires SameMemory(m, m') && StringAt(m, s, size) && k <= size && Shows(m', s + k, data) && |data| > 0
    requires j <= |data| && (forall i :: 0 <= i < j ==> data[i] != 0) && (j < |data| ==> data[j] == 0)
    ensures j < |data| ==> k + j == size
    ensures j == |data| ==> k + |data| <= size
  {
    hide Mapped, ByteAt;
    forall a | s + k <= a < s + k + |data| ensures ByteAt(m, a) == data[a - s - k] {
      assert data[a - s - k] == ByteAt(m', s + k + (a - s - k));
    }
  }

  lemma FillNothing(m: Mem, dst: int, c: u8)
    ensures Filled(m, m, dst, c, 0)
  {}

  lemma FillUsable(m: Mem, m': Mem, dst: int, c: u8, k: int, i: nat, off: nat, size: nat)
    requires Filled(m, m', dst, c, k) && Region(m, dst, size) && CARM_PTR <= dst && off < OBJ_SIZE
    requires dst <= Joined(i, off) < dst + size
    ensures Usable(m'.w, i)
  {
    assert Mapped(m, Joined(i, off)) && Mapped(m', Joined(i, off));
    assert (Joined(i, off) - CARM_PTR) / OBJ_SIZE == i;
  }

  /** check_carm_object tells the two kinds of region apart. */
  lemma FarOrHost(m: Mem, a: nat, n: nat)
    requires Region(m, a, n)
    ensures CheckCarmObject(a) ==> CARM_PTR <= a < 2 * CARM_PTR
    ensures CARM_PTR <= a ==> a + n <= 2 * CARM_PTR && (0 < n ==> CheckCarmObject(a))
    ensures !CheckCarmObject(a) ==> a + n <= CARM_PTR
  {
    if CARM_PTR <= a < 2 * CARM_PTR { assert a / CARM_PTR == 1; }
    if a < CARM_PTR { HostAddress(a); }
  }

  lemma MoveMeaning(m: Mem, m': Mem, dst: int, src: int, data: seq<u8>)
    requires Shows(m, src, data) && WroteAt(m, m', dst, data)
    ensures Copied(m, m', dst, src, |data|)
  {
    hide Mapped, ByteAt;
    forall a | dst <= a < dst + |data| ensures ByteAt(m', a) == ByteAt(m, src + (a - dst)) {
      assert data[a - dst] == ByteAt(m, src + (a - dst));
    }
  }

  lemma CopyNothing(m: Mem, dst: int, src: int)
    ensures Copied(m, m, dst, src, 0)
  {}

  /** The object the copy has reached is usable, whichever of the two regions it belongs to. */
  lemma FarUsable(m: Mem, m': Mem, dst: int, src: int, k: int, i: nat, off: nat, start: nat, size: nat)
    requires Copied(m, m', dst, src, k) && Region(m, start, size) && CARM_PTR <= start && off < OBJ_SIZE
    requires start <= Joined(i, off) < start + size
    ensures Usable(m'.w, i)
  {
    assert Mapped(m, Joined(i, off)) && Mapped(m', Joined(i, off));
    assert (Joined(i, off) - CARM_PTR) / OBJ_SIZE == i;
  }
}
