/** incr and decr: the number in an item's data, and what do_add_delta makes of it. */
module Counters {
  import opened Basics
  import opened CacheSpec
  import opened CacheInvariant
  import opened CacheRuns
  import opened ProcessCommand

  const UINT64: nat := 0x1_0000_0000_0000_0000

  /** The data block ends a line, as complete_nread demands. */
  predicate EndsLine(data: Bytes) {
    |data| >= 2 && data[|data| - 2..] == CRLF
  }

  /** strtoull on the data, None if it leaves ERANGE in errno. */
  function ReadValue(data: Bytes): Option<nat> {
    if IsUlong(Number(data)) then Some(Number(data) % UINT64) else None
  }

  /** The new value, in unsigned 64-bit arithmetic. */
  function NewValue(incr: bool, delta: int, value: nat): nat {
    var d := delta % UINT64;
    if incr then (value + d) % UINT64 else if d >= value then 0 else value - d
  }

  /** The text do_add_delta stores; `errnoSet` says that errno still held ERANGE from an earlier call. */
  function Calculated(incr: bool, delta: int, errnoSet: bool, data: Bytes): Option<Bytes> {
    if errnoSet || ReadValue(data).None? then None else Some(Decimal(NewValue(incr, delta, ReadValue(data).value)))
  }

  lemma {:induction false} DigitsBefore(a: seq<byte>, rest: seq<byte>, acc: nat)
    requires forall i :: 0 <= i < |a| ==> IsDigit(a[i])
    requires rest == [] || !IsDigit(rest[0])
    ensures Digits(a + rest, acc) == Digits(a, acc)
    decreases |a|
  {
    if a == [] {
      assert a + rest == rest;
    } else {
      assert (a + rest)[1..] == a[1..] + rest;
      DigitsBefore(a[1..], rest, acc * 10 + DigitValue(a[0]));
    }
  }

  /** A printed number is read back, whatever follows that is not a digit. */
  lemma ReadsPrinted(n: nat, rest: seq<byte>)
    requires rest == [] || !IsDigit(rest[0])
    ensures Number(Decimal(n) + rest) == n
  {
    hide IsDigit, DigitValue;
    DecimalDigits(n);
    NumeralFacts(Decimal(n));
    DigitsBefore(Decimal(n), rest, 0);
    assert (Decimal(n) + rest)[0] == Decimal(n)[0];
  }

  lemma NewValueBounds(incr: bool, delta: int, value: nat)
    requires value < UINT64
    ensures NewValue(incr, delta, value) < UINT64
  {}

  lemma NotDigits()
    ensures !IsDigit(SPACE) && !IsDigit(CRLF[0])
  {}

  /** After do_add_delta the key has an item from which the new value is read, in place and padded or in a new item,
      and whose data still ends a line; only if there is no memory for a new item nothing has changed. */
  lemma CounterReads(s: State, a: Addr, incr: bool, delta: int, o: Allocation)
    requires Inv(s) && a in s.held && a in s.items && s.items[a].linked && EndsLine(s.items[a].data)
    requires Calculated(incr, delta, false, s.items[a].data).Some?
    requires var text := Calculated(incr, delta, false, s.items[a].data).value;
      |text| + 2 > |s.items[a].data| ==> AllocationOk(s, o, |text| + 2)
    ensures var it := s.items[a];
      var text := Calculated(incr, delta, false, it.data).value;
      var s' := AddDelta(s, a, text, o);
      |text| + 2 <= |it.data| || AllocItem(s, it.key, it.exptime, o).found.Some? ==>
        && it.key in s'.table && s'.table[it.key] in s'.items
        && ReadValue(s'.items[s'.table[it.key]].data) == Some(NewValue(incr, delta, ReadValue(it.data).value))
        && EndsLine(s'.items[s'.table[it.key]].data)
  {
    hide Inv, Number, IsDigit, Decimal, AddDelta, AllocItem, AllocationOk, EndsLine, ReadValue;
    var it := s.items[a];
    var text := Calculated(incr, delta, false, it.data).value;
    OldValue(it.data);
    TextReads(incr, delta, ReadValue(it.data).value);
    if |text| + 2 <= |it.data| {
      TextStays(s, a, text, o);
    } else if AllocItem(s, it.key, it.exptime, o).found.Some? {
      NewItemLinked(s, a, text, o);
      assert text + Spaces(0) + CRLF == text + CRLF;
    }
  }

  lemma OldValue(data: Bytes)
    ensures ReadValue(data).Some? ==> ReadValue(data).value < UINT64
  {}

  function Spaces(n: nat): Bytes { seq(n, _ => SPACE) }

  /** The new value is read from its text, padded or not. */
  lemma TextReads(incr: bool, delta: int, value: nat)
    requires value < UINT64
    ensures var v := NewValue(incr, delta, value);
      forall n :: ReadValue(Decimal(v) + Spaces(n) + CRLF) == Some(v) && EndsLine(Decimal(v) + Spaces(n) + CRLF)
  {
    hide Number, IsDigit, Decimal;
    var v := NewValue(incr, delta, value);
    NewValueBounds(incr, delta, value);
    NotDigits();
    forall n ensures ReadValue(Decimal(v) + Spaces(n) + CRLF) == Some(v) && EndsLine(Decimal(v) + Spaces(n) + CRLF) {
      ReadsPrinted(v, Spaces(n) + CRLF);
      assert Decimal(v) + Spaces(n) + CRLF == Decimal(v) + (Spaces(n) + CRLF);
    }
  }

  lemma TextStays(s: State, a: Addr, text: Bytes, o: Allocation)
    requires Inv(s) && a in s.items && s.items[a].linked && EndsLine(s.items[a].data)
    requires |text| + 2 <= |s.items[a].data|
    ensures var s', it := AddDelta(s, a, text, o), s.items[a];
      && it.key in s'.table && s'.table[it.key] in s'.items
      && s'.items[s'.table[it.key]].data == text + Spaces(|it.data| - |text| - 2) + CRLF
  {
    hide TableInv, LruInv, CasInv, RefInv, DeleteInv, TimeInv, StatInv;
    LinkedKey(s, a);
  }

  lemma LinkedKey(s: State, a: Addr)
    requires TableInv(s) && a in s.items && s.items[a].linked
    ensures s.items[a].key in s.table && s.table[s.items[a].key] == a
  {}

  /** The new item of do_add_delta stays linked under the key. */
  lemma NewItemLinked(s: State, a: Addr, text: Bytes, o: Allocation)
    requires Inv(s) && a in s.held && a in s.items && s.items[a].linked
    requires |text| + 2 > |s.items[a].data| && AllocationOk(s, o, |text| + 2)
    requires AllocItem(s, s.items[a].key, s.items[a].exptime, o).found.Some?
    ensures var s', key := AddDelta(s, a, text, o), s.items[a].key;
      key in s'.table && s'.table[key] in s'.items && s'.items[s'.table[key]].data == text + CRLF
  {
    hide TableInv, LruInv, CasInv, RefInv, DeleteInv, TimeInv, StatInv, CasHistory, LinkHistory, AllocItem, UnlinkItem;
    var it := s.items[a];
    HeldFacts(s, a);
    AllocSound(s, it.key, it.exptime, o, |text| + 2);
    var r := AllocItem(s, it.key, it.exptime, o);
    var n := r.found.value;
    var s2 := SetData(r.state, n, text + CRLF);
    SetDataSound(r.state, n, text + CRLF);
    UnlinkFacts(s2, a);
  }
}
