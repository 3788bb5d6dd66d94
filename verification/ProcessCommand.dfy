/** Command lines: how process_command cuts a line into tokens, and what it makes of it. */
module ProcessCommand {
  import opened Basics
  import opened Request
  import CacheSpec
  import Slabs

  const SP: byte := 32
  const NUL: byte := 0
  const MAX_TOKENS: nat := 8

  const ADD: seq<byte> := [97, 100, 100]
  const SET: seq<byte> := [115, 101, 116]
  const REPLACE: seq<byte> := [114, 101, 112, 108, 97, 99, 101]
  const PREPEND: seq<byte> := [112, 114, 101, 112, 101, 110, 100]
  const APPEND: seq<byte> := [97, 112, 112, 101, 110, 100]
  const CAS: seq<byte> := [99, 97, 115]
  const INCR: seq<byte> := [105, 110, 99, 114]
  const DECR: seq<byte> := [100, 101, 99, 114]
  const DELETE: seq<byte> := [100, 101, 108, 101, 116, 101]
  const FLUSH_ALL: seq<byte> := [102, 108, 117, 115, 104, 95, 97, 108, 108]
  const VERBOSITY: seq<byte> := [118, 101, 114, 98, 111, 115, 105, 116, 121]
  const QUIT: seq<byte> := [113, 117, 105, 116]
  const NOREPLY: seq<byte> := [110, 111, 114, 101, 112, 108, 121]

  // ----- tokenize_command

  /** Where the word at the front of `s` ends. */
  function WordEnd(s: seq<byte>): (e: nat)
    ensures e <= |s| && (e < |s| ==> s[e] == SP || s[e] == NUL) && forall i :: 0 <= i < e ==> s[i] != SP && s[i] != NUL
  {
    if s == [] || s[0] == SP || s[0] == NUL then 0 else 1 + WordEnd(s[1..])
  }

  /** The first `max` words of a C string. */
  function Tokens(s: seq<byte>, max: nat): seq<seq<byte>>
    decreases |s|
  {
    if max == 0 || s == [] || s[0] == NUL then []
    else if s[0] == SP then Tokens(s[1..], max)
    else [s[..WordEnd(s)]] + Tokens(s[WordEnd(s)..], max - 1)
  }

  function Slices(s: seq<byte>, spans: seq<(nat, nat)>): seq<seq<byte>>
    requires forall t :: t in spans ==> t.0 <= t.1 <= |s|
    decreases |spans|
  {
    if spans == [] then []
    else
      var n := |spans| - 1;
      assert spans[n] in spans;
      Slices(s, spans[..n]) + [s[spans[n].0..spans[n].1]]
  }

  lemma {:induction false} SlicesFrame(s: seq<byte>, t: seq<byte>, spans: seq<(nat, nat)>)
    requires |t| == |s| && forall p :: p in spans ==> p.0 <= p.1 <= |s| && s[p.0..p.1] == t[p.0..p.1]
    ensures Slices(s, spans) == Slices(t, spans)
    decreases |spans|
  {
    if spans != [] {
      assert spans[|spans| - 1] in spans;
      SlicesFrame(s, t, spans[..|spans| - 1]);
    }
  }

  lemma SlicesPush(s: seq<byte>, spans: seq<(nat, nat)>, p: (nat, nat))
    requires forall t :: t in spans ==> t.0 <= t.1 <= |s|
    requires p.0 <= p.1 <= |s|
    ensures Slices(s, spans + [p]) == Slices(s, spans) + [s[p.0..p.1]]
  {
    assert (spans + [p])[..|spans|] == spans;
  }

  /** In the middle of a word that began at `b`: the word ends at `e` if a space or the end is there. */
  lemma WordAt(s: seq<byte>, b: nat, e: nat)
    requires b <= e <= |s| && forall i :: b <= i < e ==> s[i] != SP && s[i] != NUL
    requires e < |s| ==> s[e] == SP || s[e] == NUL
    ensures WordEnd(s[b..]) == e - b
  {
    var t := s[b..];
    assert forall i :: 0 <= i < |t| ==> t[i] == s[b + i];
  }

  /** The span `t` of the command is a word, and has its NUL. */
  ghost predicate IsCut(was: seq<byte>, now: seq<byte>, t: (nat, nat)) {
    t.0 < t.1 < |now| == |was| && now[t.1] == NUL && now[t.0..t.1] == was[t.0..t.1]
  }

  ghost predicate AllCut(was: seq<byte>, now: seq<byte>, tokens: seq<(nat, nat)>, e: nat) {
    forall t :: t in tokens ==> IsCut(was, now, t) && t.0 <= t.1 <= e
  }

  ghost predicate OnlySpaces(was: seq<byte>, now: seq<byte>, e: nat) {
    |now| == |was| && forall i :: 0 <= i < |was| ==> now[i] == was[i] || (now[i] == NUL && was[i] == SP && i < e)
  }

  /** Ending a word at the space behind it leaves the words before it alone. */
  lemma CutAt(was: seq<byte>, now: seq<byte>, tokens: seq<(nat, nat)>, s: nat, e: nat)
    requires OnlySpaces(was, now, e) && s < e < |was| && (was[e] == SP || was[e] == NUL)
    requires AllCut(was, now, tokens, e) && forall i :: s <= i < e ==> now[i] == was[i]
    ensures OnlySpaces(was, now[e := NUL], e + 1) && AllCut(was, now[e := NUL], tokens + [(s, e)], e)
  {
    var now' := now[e := NUL];
    forall t | t in tokens + [(s, e)] ensures IsCut(was, now', t) && t.0 <= t.1 <= e {
      if t in tokens {
        assert IsCut(was, now, t);
        assert now'[t.0..t.1] == now[t.0..t.1];
      } else {
        assert t == (s, e);
        assert now'[s..e] == was[s..e];
      }
    }
  }

  lemma CutSlices(was: seq<byte>, now: seq<byte>, tokens: seq<(nat, nat)>, n: nat)
    requires n < |was| == |now| && AllCut(was, now, tokens, n)
    ensures forall t :: t in tokens ==> t.0 <= t.1 <= n
    ensures Slices(now[..n], tokens) == Slices(was[..n], tokens)
  {
    forall t | t in tokens ensures t.0 <= t.1 <= n && was[..n][t.0..t.1] == now[..n][t.0..t.1] {
      assert IsCut(was, now, t);
      assert was[..n][t.0..t.1] == was[t.0..t.1] && now[..n][t.0..t.1] == now[t.0..t.1];
    }
    SlicesFrame(was[..n], now[..n], tokens);
  }

  /** What the loop of tokenize_command has done when it looks at position `e` of a word that began at `s`. */
  ghost predicate Cutting(was: seq<byte>, now: seq<byte>, tokens: seq<(nat, nat)>, s: nat, e: nat, n: nat) {
    && s <= e <= n < |was| == |now| && was[n] == NUL && (forall i :: 0 <= i < n ==> was[i] != NUL)
    && OnlySpaces(was, now, e) && now[s..] == was[s..] && (forall i :: s <= i < e ==> was[i] != SP)
    && AllCut(was, now, tokens, e) && (forall t :: t in tokens ==> t.0 <= t.1 <= n) && |tokens| <= MAX_TOKENS - 1
    && Tokens(was[..n], MAX_TOKENS - 1) == Slices(was[..n], tokens) + Tokens(was[s..n], MAX_TOKENS - 1 - |tokens|)
  }

  lemma StartCutting(was: seq<byte>, n: nat)
    requires n < |was| && was[n] == NUL && forall i :: 0 <= i < n ==> was[i] != NUL
    ensures Cutting(was, was, [], 0, 0, n)
  {
    assert was[0..n] == was[..n];
  }

  /** A word ends at `e`. */
  lemma CutWord(was: seq<byte>, now: seq<byte>, tokens: seq<(nat, nat)>, s: nat, e: nat, n: nat)
    requires Cutting(was, now, tokens, s, e, n) && s < e && |tokens| < MAX_TOKENS - 1 && (now[e] == SP || e == n)
    ensures AllCut(was, now[e := NUL], tokens + [(s, e)], n) && OnlySpaces(was, now[e := NUL], n + 1)
    ensures e < n ==> Cutting(was, now[e := NUL], tokens + [(s, e)], e + 1, e + 1, n)
    ensures e == n ==> Tokens(was[..n], MAX_TOKENS - 1) == Slices(was[..n], tokens + [(s, e)])
  {
    hide OnlySpaces, AllCut, Tokens, Slices;
    var now', max := now[e := NUL], MAX_TOKENS - 1 - |tokens|;
    SameTail(was, now, s, e);
    CutAt(was, now, tokens, s, e);
    Later(was, now', tokens + [(s, e)], e, n);
    assert was[..n][s..] == was[s..n];
    TakeWord(was[..n], tokens, s, e);
    if e < n {
      assert was[..n][e + 1..] == was[e + 1..n];
    } else {
      NoTokens(max - 1);
    }
  }

  /** The word that begins at `s` joins the words found so far. */
  lemma TakeWord(line: seq<byte>, tokens: seq<(nat, nat)>, s: nat, e: nat)
    requires s < e <= |line| && |tokens| < MAX_TOKENS - 1 && forall t :: t in tokens ==> t.0 <= t.1 <= |line|
    requires (forall i :: s <= i < e ==> line[i] != SP && line[i] != NUL) && (e < |line| ==> line[e] == SP)
    requires Tokens(line, MAX_TOKENS - 1) == Slices(line, tokens) + Tokens(line[s..], MAX_TOKENS - 1 - |tokens|)
    ensures forall t :: t in tokens + [(s, e)] ==> t.0 <= t.1 <= |line|
    ensures Tokens(line, MAX_TOKENS - 1) == Slices(line, tokens + [(s, e)]) +
      Tokens(if e < |line| then line[e + 1..] else [], MAX_TOKENS - 2 - |tokens|)
  {
    hide Tokens, Slices, WordEnd;
    SlicesPush(line, tokens, (s, e));
    WordAt(line, s, e);
    var max := MAX_TOKENS - 1 - |tokens|;
    NextToken(line, s, e, max);
    var rest := Tokens(if e < |line| then line[e + 1..] else [], max - 1);
    Regroup(Slices(line, tokens), [line[s..e]], rest);
  }

  lemma Regroup(a: seq<seq<byte>>, b: seq<seq<byte>>, c: seq<seq<byte>>)
    ensures a + (b + c) == a + b + c
  {}

  lemma SameTail(was: seq<byte>, now: seq<byte>, s: nat, e: nat)
    requires s <= e < |was| == |now| && now[s..] == was[s..]
    ensures (forall i :: s <= i < e ==> now[i] == was[i]) && now[e] == was[e] && now[e := NUL][e + 1..] == was[e + 1..]
  {
    assert forall i :: s <= i < |was| ==> now[i] == now[s..][i - s] == was[s..][i - s] == was[i];
  }

  lemma NoTokens(max: nat)
    ensures Tokens([], max) == []
  {}

  lemma Later(was: seq<byte>, now: seq<byte>, tokens: seq<(nat, nat)>, e: nat, n: nat)
    requires e <= n && OnlySpaces(was, now, e + 1) && AllCut(was, now, tokens, e)
    ensures OnlySpaces(was, now, n + 1) && AllCut(was, now, tokens, n) && AllCut(was, now, tokens, e + 1)
    ensures forall t :: t in tokens ==> t.0 <= t.1 <= e
  {}

  /** At `e` there is another space, or one more byte of a word. */
  lemma CutOn(was: seq<byte>, now: seq<byte>, tokens: seq<(nat, nat)>, s: nat, e: nat, n: nat)
    requires Cutting(was, now, tokens, s, e, n) && e < n
    ensures now[e] != SP ==> Cutting(was, now, tokens, s, e + 1, n)
    ensures now[e] == SP && s == e ==> Cutting(was, now, tokens, e + 1, e + 1, n)
  {
    hide Tokens, Slices;
    assert now[s..][e - s] == was[s..][e - s];
    if now[e] == SP && s == e {
      assert was[..n][s..] == was[s..n] && was[..n][e + 1..] == was[e + 1..n];
      SkipSpace(was[..n], s, MAX_TOKENS - 1 - |tokens|);
      assert now[e + 1..] == now[e..][1..];
    }
  }

  lemma CutDone(was: seq<byte>, now: seq<byte>, tokens: seq<(nat, nat)>, s: nat, e: nat, n: nat)
    requires Cutting(was, now, tokens, s, e, n) && (|tokens| >= MAX_TOKENS - 1 || s == n)
    ensures AllCut(was, now, tokens, n) && OnlySpaces(was, now, n + 1)
    ensures Tokens(was[..n], MAX_TOKENS - 1) == Slices(was[..n], tokens)
  {
    hide Slices;
    assert was[n..n] == [];
  }

  /** tokenize_command, on a command that ends at its first NUL: the words it finds, each now ending in a NUL. */
  method TokenizeCommand(command: array<byte>, ghost n: nat) returns (tokens: seq<(nat, nat)>)
    requires n < command.Length && command[n] == NUL && forall i :: 0 <= i < n ==> command[i] != NUL
    modifies command
    ensures forall t :: t in tokens ==> t.0 <= t.1 <= n
    ensures AllCut(old(command[..]), command[..], tokens, n)
    ensures Slices(old(command[..n]), tokens) == Slices(command[..n], tokens) ==
      Tokens(old(command[..n]), MAX_TOKENS - 1)
    ensures OnlySpaces(old(command[..]), command[..], n + 1)
  {
    hide IsCut, OnlySpaces, AllCut, Cutting, Tokens, Slices;
    ghost var was := command[..];
    StartCutting(was, n);
    tokens := [];
    var s, e := 0, 0;
    while |tokens| < MAX_TOKENS - 1
      invariant e <= n && Cutting(was, command[..], tokens, s, e, n)
      decreases n - e
    {
      CutFacts(was, command[..], tokens, s, e, n);
      if command[e] == SP {
        if s != e {
          CutWord(was, command[..], tokens, s, e, n);
          tokens := tokens + [(s, e)];
          command[e] := NUL;
        } else {
          CutOn(was, command[..], tokens, s, e, n);
        }
        s := e + 1;
      } else if command[e] == NUL {
        if s != e {
          CutWord(was, command[..], tokens, s, e, n);
          tokens := tokens + [(s, e)];
          assert command[..][e := NUL] == command[..];
          CutSlices(was, command[..], tokens, n);
          return;
        }
        break;
      } else {
        CutOn(was, command[..], tokens, s, e, n);
      }
      e := e + 1;
    }
    CutDone(was, command[..], tokens, s, e, n);
    CutSlices(was, command[..], tokens, n);
  }

  lemma CutFacts(was: seq<byte>, now: seq<byte>, tokens: seq<(nat, nat)>, s: nat, e: nat, n: nat)
    requires Cutting(was, now, tokens, s, e, n)
    ensures s <= e <= n < |now| && now[e] == was[e] && (now[e] == NUL <==> e == n)
  {
    assert now[s..][e - s] == was[s..][e - s];
  }

  lemma NextToken(line: seq<byte>, s: nat, e: nat, max: nat)
    requires s < e <= |line| && max > 0 && line[s] != SP && line[s] != NUL && WordEnd(line[s..]) == e - s
    requires e < |line| ==> line[e] == SP
    ensures Tokens(line[s..], max) == [line[s..e]] + Tokens(if e < |line| then line[e + 1..] else [], max - 1)
  {
    assert line[s..][..e - s] == line[s..e] && line[s..][e - s..] == line[e..];
    if e < |line| && max > 1 { assert line[e..][1..] == line[e + 1..]; }
  }

  lemma SkipSpace(line: seq<byte>, s: nat, max: nat)
    requires s < |line| && line[s] == SP
    ensures Tokens(line[s..], max) == Tokens(line[s + 1..], max)
  {
    assert line[s..][1..] == line[s + 1..];
  }

  // ----- Words joined by spaces

  predicate IsWord(w: seq<byte>) {
    w != [] && forall i :: 0 <= i < |w| ==> w[i] != SP && w[i] != NUL && w[i] != NL
  }

  function Join(words: seq<seq<byte>>): seq<byte> {
    if words == [] then [] else if |words| == 1 then words[0] else words[0] + [SP] + Join(words[1..])
  }

  lemma {:induction false} JoinBytes(words: seq<seq<byte>>)
    requires forall w :: w in words ==> IsWord(w)
    ensures forall i :: 0 <= i < |Join(words)| ==> Join(words)[i] != NL
  {
    if words != [] { assert IsWord(words[0]); }
    if |words| > 1 { JoinBytes(words[1..]); }
  }

  lemma FirstToken(s: seq<byte>, e: nat, max: nat)
    requires 0 < e <= |s| && max > 0 && s[0] != SP && s[0] != NUL && WordEnd(s) == e
    ensures Tokens(s, max) == [s[..e]] + Tokens(s[e..], max - 1)
  {}

  /** A line of words is cut into these words. */
  lemma {:induction false} TokensOfJoin(words: seq<seq<byte>>, max: nat)
    requires |words| <= max && forall w :: w in words ==> IsWord(w)
    ensures Tokens(Join(words), max) == words
    decreases |words|
  {
    hide Tokens;
    NoTokens(max);
    if words != [] {
      var w, s := words[0], Join(words);
      assert w in words;
      assert s[..|w|] == w;
      WordAt(s, 0, |w|);
      assert s[0..] == s;
      var rest := s[|w|..];
      FirstToken(s, |w|, max);
      if |words| > 1 {
        assert rest == [SP] + Join(words[1..]);
        SkipSpace(rest, 0, max - 1);
        assert rest[0..] == rest && rest[1..] == Join(words[1..]);
        TokensOfJoin(words[1..], max - 1);
      } else {
        NoTokens(max - 1);
      }
    }
  }

  // ----- Numbers

  const DIGITS: seq<byte> := [48, 49, 50, 51, 52, 53, 54, 55, 56, 57]

  function Decimal(n: nat): seq<byte> {
    if n < 10 then [DIGITS[n]] else Decimal(n / 10) + [DIGITS[n % 10]]
  }

  predicate IsDigit(b: byte) { 48 <= b <= 57 }

  function DigitValue(b: byte): (d: nat)
    requires IsDigit(b)
    ensures d < 10
  {
    (b - 48) as nat
  }

  /** The number that the leading digits of `s` continue, `acc` being the part already read. */
  function Digits(s: seq<byte>, acc: nat): nat {
    if s == [] || !IsDigit(s[0]) then acc else Digits(s[1..], acc * 10 + DigitValue(s[0]))
  }

  /** What strtol and strtoul read in base 10, before the result is cut to 64 bits: white space, a sign, digits. */
  function Number(s: seq<byte>): int {
    if s == [] then 0
    else if 9 <= s[0] <= 13 || s[0] == SP then Number(s[1..])
    else if s[0] == 45 then 0 - Digits(s[1..], 0)
    else if s[0] == 43 then Digits(s[1..], 0)
    else Digits(s, 0)
  }

  predicate IsLong(x: int) { -0x8000_0000_0000_0000 <= x < 0x8000_0000_0000_0000 }

  predicate IsUlong(x: int) { -0x1_0000_0000_0000_0000 < x < 0x1_0000_0000_0000_0000 }

  lemma DigitsOf(d: nat)
    requires d < 10
    ensures IsDigit(DIGITS[d]) && DigitValue(DIGITS[d]) == d && DIGITS[d] != SP && DIGITS[d] != NUL && DIGITS[d] != NL
    ensures !(9 <= DIGITS[d] <= 13) && DIGITS[d] != 45 && DIGITS[d] != 43
  {}

  lemma {:induction false} DigitsAppend(a: seq<byte>, b: byte, acc: nat)
    requires forall i :: 0 <= i < |a| ==> IsDigit(a[i])
    requires IsDigit(b)
    ensures Digits(a + [b], acc) == Digits(a, acc) * 10 + DigitValue(b)
    decreases |a|
  {
    if a == [] {
      assert (a + [b])[1..] == [];
    } else {
      assert (a + [b])[1..] == a[1..] + [b];
      DigitsAppend(a[1..], b, acc * 10 + DigitValue(a[0]));
    }
  }

  predicate IsNumeral(w: seq<byte>) {
    w != [] && forall i :: 0 <= i < |w| ==> IsDigit(w[i])
  }

  lemma NumeralFacts(w: seq<byte>)
    requires IsNumeral(w)
    ensures IsWord(w) && !(9 <= w[0] <= 13) && w[0] != SP && w[0] != 45 && w[0] != 43
  {}

  lemma {:induction false} DecimalDigits(n: nat)
    ensures IsNumeral(Decimal(n)) && Digits(Decimal(n), 0) == n
  {
    hide IsDigit, DigitValue;
    DigitsOf(n % 10);
    if n >= 10 {
      DecimalDigits(n / 10);
      DigitsAppend(Decimal(n / 10), DIGITS[n % 10], 0);
    } else {
      assert Decimal(n)[1..] == [];
    }
  }

  /** Printing and reading back. */
  lemma NumberOfDecimal(n: nat)
    ensures Number(Decimal(n)) == n && IsWord(Decimal(n))
  {
    hide IsDigit, DigitValue;
    DecimalDigits(n);
    NumeralFacts(Decimal(n));
  }

  // ----- process_command

  /** What a line cannot tell: whether errno still holds an error of an earlier call when command `k` looks at it, and
      whether the slab allocator finds room for the item of command `k`. */
  datatype Env = Env(errnoSet: nat -> bool, room: nat -> bool)

  function Printed(x: int): nat {
    if x < 0 then 1 + |Decimal(-x)| else |Decimal(x)|
  }

  /** item_make_header: header, key with its NUL, " flags length\r\n" and the data block of vlen + 2 bytes, an int,
      added up as a size_t. */
  function ItemSize(nkey: nat, flags: int, vlen: int): nat {
    var nbytes := Int32(vlen + 2);
    (CacheSpec.ITEM_HEADER + nkey + 1 + (Printed(flags) + Printed(Int32(nbytes - 2)) + 4) + nbytes)
      % 0x1_0000_0000_0000_0000
  }

  function Pow10(d: nat): nat { if d == 0 then 1 else 10 * Pow10(d - 1) }

  lemma {:induction false} DecimalLength(n: nat, d: nat)
    requires n < Pow10(d) && d > 0
    ensures 0 < |Decimal(n)| <= d
    decreases d
  {
    if n >= 10 { DecimalLength(n / 10, d - 1); }
  }

  lemma PrintedInt(x: int)
    requires 0 - INT_MAX - 1 <= x <= INT_MAX
    ensures 0 < Printed(x) <= 11
  {
    assert Pow10(10) == 10_000_000_000 by { assert Pow10(5) == 100_000; }
    DecimalLength(if x < 0 then -x else x, 10);
  }

  /** An item of a megabyte or more is too large, also where the length of its block wraps around; and one that is not
      has a block whose length does not. */
  lemma ItemSizeExact(nkey: nat, flags: int, vlen: Length)
    requires nkey <= CacheSpec.KEY_MAX_LENGTH && 0 - INT_MAX - 1 <= flags <= INT_MAX
    ensures vlen >= Slabs.POWER_BLOCK ==> ItemSize(nkey, flags, vlen) > Slabs.POWER_BLOCK
    ensures ItemSize(nkey, flags, vlen) <= Slabs.POWER_BLOCK ==> vlen + 2 < Slabs.POWER_BLOCK
  {
    hide Decimal;
    var nbytes := Int32(vlen + 2);
    IntWraps(vlen + 2);
    PrintedInt(flags);
    PrintedInt(Int32(nbytes - 2));
    hide Printed, Int32;
    SizeWraps(CacheSpec.ITEM_HEADER + nkey + 1 + (Printed(flags) + Printed(Int32(nbytes - 2)) + 4), nbytes);
  }

  lemma SizeWraps(head: nat, nbytes: int)
    requires 0 < head <= 1000 && 0 - INT_MAX - 1 <= nbytes <= INT_MAX && (nbytes >= 0 || nbytes <= 0 - INT_MAX)
    ensures var size := (head + nbytes) % 0x1_0000_0000_0000_0000;
      if nbytes >= 0 then size == head + nbytes else size > Slabs.POWER_BLOCK
  {}

  /** set_noreply_maybe. */
  predicate Silent(tokens: seq<seq<byte>>) {
    tokens != [] && tokens[|tokens| - 1] == NOREPLY
  }

  /** process_update_command up to the allocation. */
  function UpdateOutcome(env: Env, k: nat, tokens: seq<seq<byte>>, handleCas: bool): Outcome
    requires |tokens| >= if handleCas then 6 else 5
  {
    var noreply, nkey := Silent(tokens), |tokens[1]|;
    if nkey > CacheSpec.KEY_MAX_LENGTH then Answer(noreply)
    else
      var flags, vlen := Int32(Number(tokens[2])), Int32(Number(tokens[4]));
      var inRange := IsUlong(Number(tokens[2])) && IsLong(Number(tokens[3])) && IsLong(Number(tokens[4]));
      if env.errnoSet(k) || !inRange || (handleCas && !IsUlong(Number(tokens[5]))) || vlen < 0 then Answer(noreply)
      else if ItemSize(nkey, flags, vlen) > Slabs.POWER_BLOCK || !env.room(k) then Refuse(vlen, noreply)
      else Accept(vlen, noreply)
  }

  /** process_command, by the number of tokens (the empty one at the end counts) and the first of them. */
  function LineOutcome(env: Env, k: nat, line: seq<byte>): Outcome {
    var tokens := Tokens(line, MAX_TOKENS - 1);
    var n := |tokens| + 1;
    if n == 1 then Answer(false)
    else if (n == 6 || n == 7) && tokens[0] in {ADD, SET, REPLACE, PREPEND, APPEND}
    then UpdateOutcome(env, k, tokens, false)
    else if (n == 7 || n == 8) && tokens[0] == CAS
    then UpdateOutcome(env, k, tokens, true)
    else if n == 2 && tokens[0] == QUIT then Quit
    else if ((n == 4 || n == 5) && tokens[0] in {INCR, DECR}) || (3 <= n <= 5 && tokens[0] == DELETE)
      || (2 <= n <= 4 && tokens[0] == FLUSH_ALL) || ((n == 3 || n == 4) && tokens[0] == VERBOSITY)
    then Answer(Silent(tokens))
    else Answer(false)
  }

  function ServerDecide(env: Env): Decide {
    (k: nat, line: seq<byte>) => LineOutcome(env, k, line)
  }

  // ----- A data block read as commands

  predicate IsArguments(words: seq<seq<byte>>) {
    |words| == 3 && (forall w :: w in words ==> IsWord(w)) && |words[0]| <= CacheSpec.KEY_MAX_LENGTH
    && IsUlong(Number(words[1])) && IsLong(Number(words[2]))
  }

  /** The line `set <key> <flags> <exptime> <vlen>`, with or without `noreply`. */
  function SetLine(arguments: seq<seq<byte>>, vlen: nat, noreply: bool): seq<byte> {
    Join([SET] + arguments + [Decimal(vlen)] + if noreply then [NOREPLY] else [])
  }

  lemma Int32Of(x: nat)
    requires x < 0x8000_0000
    ensures Int32(x) == x
  {}

  lemma SetTokens(arguments: seq<seq<byte>>, vlen: nat, noreply: bool)
    requires IsArguments(arguments)
    ensures var words := [SET] + arguments + [Decimal(vlen)] + if noreply then [NOREPLY] else [];
      && Tokens(SetLine(arguments, vlen, noreply), MAX_TOKENS - 1) == words && Silent(words) == noreply
      && forall i :: 0 <= i < |SetLine(arguments, vlen, noreply)| ==> SetLine(arguments, vlen, noreply)[i] != NL
  {
    hide Number, IsWord, Decimal;
    var words := [SET] + arguments + [Decimal(vlen)] + if noreply then [NOREPLY] else [];
    NumberOfDecimal(vlen);
    CommandWords();
    DecimalIsNotNoreply(vlen);
    forall w | w in words ensures IsWord(w) {
      assert w == SET || w in arguments || w == Decimal(vlen) || w == NOREPLY;
    }
    TokensOfJoin(words, MAX_TOKENS - 1);
    JoinBytes(words);
  }

  lemma CommandWords()
    ensures IsWord(SET) && IsWord(NOREPLY) && IsWord(FLUSH_ALL)
  {}

  lemma DecimalIsNotNoreply(n: nat)
    ensures Decimal(n) != NOREPLY
  {
    DecimalDigits(n);
    assert !IsDigit(NOREPLY[0]);
  }

  /** A set of a block of a megabyte or more is refused, whatever its other arguments. */
  lemma TooLarge(env: Env, k: nat, arguments: seq<seq<byte>>, vlen: nat, noreply: bool)
    requires IsArguments(arguments) && Slabs.POWER_BLOCK <= vlen <= INT_MAX && !env.errnoSet(k)
    ensures LineOutcome(env, k, SetLine(arguments, vlen, noreply)) == Refuse(vlen, noreply)
  {
    hide Number, IsWord, Decimal, SetLine, Tokens, Silent, ItemSize;
    SetTokens(arguments, vlen, noreply);
    NumberOfDecimal(vlen);
    Int32Of(vlen);
    Int32Range(Number(arguments[1]));
    ItemSizeExact(|arguments[0]|, Int32(Number(arguments[1])), vlen);
  }

  lemma Int32Range(x: int)
    ensures 0 - INT_MAX - 1 <= Int32(x) <= INT_MAX
  {}

  /** Only blocks that fit an item, and hence an int, are accepted. */
  lemma AcceptedFits(env: Env, k: nat, line: seq<byte>)
    ensures LineOutcome(env, k, line).Accept? ==> LineOutcome(env, k, line).vlen + 2 < Slabs.POWER_BLOCK
  {
    hide Number, Tokens, ItemSize;
    forall nkey, flags, vlen: Length | 0 <= nkey <= CacheSpec.KEY_MAX_LENGTH && 0 - INT_MAX - 1 <= flags <= INT_MAX
      ensures ItemSize(nkey, flags, vlen) <= Slabs.POWER_BLOCK ==> vlen + 2 < Slabs.POWER_BLOCK
    {
      ItemSizeExact(nkey, flags, vlen);
    }
    var tokens := Tokens(line, MAX_TOKENS - 1);
    if |tokens| > 2 { Int32Range(Number(tokens[2])); }
  }

  lemma LineAhead(line: seq<byte>, rest: seq<byte>)
    requires line != [] && forall i :: 0 <= i < |line| ==> line[i] != NL
    ensures var s := line + [CR, NL] + rest;
      FindNl(s) == |line| + 1 && LineOf(s, FindNl(s)) == line && s[FindNl(s) + 1..] == rest
  {
    var s := line + [CR, NL] + rest;
    assert s[|line|] == CR && s[|line| + 1] == NL && CR != NL;
    assert forall i :: 0 <= i < |line| ==> s[i] == line[i];
    assert s[..|line|] == line;
  }

  /** A silent set that is too large leaves its data block to be read as commands; without `noreply` the block is
      skipped, if its length fits an int. */
  lemma BlockAsCommands(env: Env, k: nat, arguments: seq<seq<byte>>, vlen: nat, noreply: bool, rest: seq<byte>)
    requires IsArguments(arguments) && Slabs.POWER_BLOCK <= vlen <= INT_MAX && !env.errnoSet(k)
    ensures var line := SetLine(arguments, vlen, noreply);
      var r := Run(ServerDecide(env), Line, k, line + [CR, NL] + rest);
      && (noreply ==> r == Prepend([Command(line)], Run(ServerDecide(env), Line, k + 1, rest)))
      && (!noreply && |rest| >= vlen + 2 ==>
          (r == Prepend([Command(line)], Run(ServerDecide(env), Line, k + 1, rest[vlen + 2..]))
           <==> vlen + 2 <= INT_MAX))
      && (!noreply && vlen + 2 > INT_MAX ==>
          r == Result([Command(line)], Swallow(vlen + 2 - 0x1_0000_0000), k + 1, rest))
  {
    hide Run, LineOutcome, Tokens, Number, IsWord, SetLine, Prepend, After, FindNl, LineOf;
    var line := SetLine(arguments, vlen, noreply);
    SetTokens(arguments, vlen, noreply);
    TooLarge(env, k, arguments, vlen, noreply);
    SetLineNotEmpty(arguments, vlen, noreply);
    LineAhead(line, rest);
    var d := ServerDecide(env);
    assert d(k, line) == Refuse(vlen, noreply);
    hide ServerDecide;
    RefusedBlock(d, k, line + [CR, NL] + rest);
  }

  /** `set k 0 0 2147483647`: the number of bytes to swallow is negative, and the server loses its way. */
  lemma OverflowExample(env: Env, rest: seq<byte>)
    requires !env.errnoSet(0)
    ensures var s := SetLine([[107], [48], [48]], 2147483647, false) + [CR, NL] + rest;
      Run(ServerDecide(env), Line, 0, s).mode == Swallow(-2147483647) && !Sane(ServerDecide(env), s)
  {
    hide Run, SetLine, IsArguments, ServerDecide, LineOutcome;
    ExampleArguments();
    BlockAsCommands(env, 0, [[107], [48], [48]], 2147483647, false, rest);
  }

  lemma SetLineNotEmpty(arguments: seq<seq<byte>>, vlen: nat, noreply: bool)
    requires |arguments| == 3
    ensures SetLine(arguments, vlen, noreply) != []
  {}

  /** `set k 0 0 1048576 noreply`, with a block that begins with `flush_all`: the server flushes its cache. */
  lemma SilentRefusalExample(env: Env, block: seq<byte>)
    requires |block| == 1048578 && !env.errnoSet(0) && FLUSH_ALL + [CR, NL] <= block
    ensures var line := SetLine([[107], [48], [48]], 1048576, true);
      var events := Run(ServerDecide(env), Line, 0, line + [CR, NL] + block).events;
      |events| >= 2 && events[0] == Command(line) && events[1] == Command(FLUSH_ALL)
  {
    hide Run, LineOutcome, Tokens, IsArguments, SetLine, ServerDecide, After;
    var arguments: seq<seq<byte>> := [[107], [48], [48]];
    ExampleArguments();
    BlockAsCommands(env, 0, arguments, 1048576, true, block);
    FirstCommand(ServerDecide(env), 1, FLUSH_ALL, block);
  }

  lemma FirstCommand(d: Decide, k: nat, line: seq<byte>, s: seq<byte>)
    requires IsWord(line) && line + [CR, NL] <= s
    ensures var events := Run(d, Line, k, s).events; events != [] && events[0] == Command(line)
  {
    hide Run, After;
    var rest := s[|line| + 2..];
    assert s == line + [CR, NL] + rest;
    LineAhead(line, rest);
    RunLine(d, k, s);
  }

  lemma ExampleArguments()
    ensures IsArguments([[107], [48], [48]])
  {
    assert Digits([48], 0) == 0;
    assert Number([48]) == 0;
  }
}
