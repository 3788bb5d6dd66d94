/** The command lines without a data block, from their bytes to the cache: process_command on the engine. */
module CacheLines {
  import opened Basics
  import opened CacheSpec
  import opened CacheInvariant
  import opened CacheRuns
  import opened CacheCommands
  import opened Cache
  import opened CacheServer
  import opened CacheRequests
  import Counters
  import Request
  import PC = ProcessCommand

  const GET: Bytes := [103, 101, 116]
  const GETS: Bytes := [103, 101, 116, 115]
  const BGET: Bytes := [98, 103, 101, 116]

  // ----- Cutting a line with many keys

  /** What tokenize_command leaves for the next call once it has `max` words. */
  function Behind(s: Bytes, max: nat): (r: Bytes)
    ensures |r| <= |s|
    decreases |s|
  {
    if max == 0 || s == [] || s[0] == PC.NUL then s
    else if s[0] == PC.SP then Behind(s[1..], max)
    else Behind(s[PC.WordEnd(s)..], max - 1)
  }

  /** Cutting goes on where it stopped. */
  lemma {:induction false} TokensSplit(s: Bytes, m: nat, n: nat)
    ensures PC.Tokens(s, m + n) == PC.Tokens(s, m) + PC.Tokens(Behind(s, m), n)
    ensures PC.Tokens(s, m) != [] ==> |Behind(s, m)| < |s|
    decreases |s|
  {
    if m > 0 && s != [] && s[0] != PC.NUL {
      if s[0] == PC.SP {
        TokensSplit(s[1..], m, n);
      } else {
        TokensSplit(s[PC.WordEnd(s)..], m - 1, n);
      }
    }
  }

  lemma {:induction false} TokensEnough(s: Bytes, m: nat)
    requires |s| <= m
    ensures PC.Tokens(s, m) == PC.Tokens(s, |s|)
    decreases |s|
  {
    if s != [] && s[0] != PC.NUL {
      if s[0] == PC.SP {
        TokensEnough(s[1..], m);
        TokensEnough(s[1..], |s|);
      } else {
        var e := PC.WordEnd(s);
        TokensEnough(s[e..], m - 1);
        TokensEnough(s[e..], |s| - 1);
      }
    }
  }

  lemma {:induction false} NoWords(s: Bytes, m: nat, n: nat)
    requires m > 0 && PC.Tokens(s, m) == []
    ensures PC.Tokens(Behind(s, m), n) == []
    decreases |s|
  {
    if s != [] && s[0] == PC.SP { NoWords(s[1..], m, n); }
  }

  /** The words behind a cut, in terms of the next cut. */
  lemma NextCut(s: Bytes, m: nat, all: nat)
    requires m > 0 && |s| <= all
    ensures PC.Tokens(s, all) == PC.Tokens(s, m) + PC.Tokens(Behind(s, m), all)
    ensures PC.Tokens(s, m) != [] ==> |Behind(s, m)| < |s|
    ensures PC.Tokens(s, m) == [] || Behind(s, m) == [] ==> PC.Tokens(Behind(s, m), all) == []
  {
    hide PC.Tokens, Behind;
    TokensSplit(s, m, all);
    TokensEnough(s, all);
    TokensEnough(s, m + all);
    if PC.Tokens(s, m) == [] { NoWords(s, m, all); }
    PC.NoTokens(all);
  }

  /** All words of the line but the first. */
  function Keys(line: Bytes): seq<Bytes> {
    var words := PC.Tokens(line, |line|);
    if words == [] then [] else words[1..]
  }

  // ----- What a line asks for

  datatype Ask =
    Nothing | Gets(keys: seq<Bytes>) | Counts(key: Bytes, incr: bool, delta: int) | Deletes(key: Bytes, delay: int)
    | Flushes(delay: int)

  /** process_command and the commands without a data block up to the lookup. */
  function AskOf(env: PC.Env, k: nat, line: Bytes): Ask {
    var words := Words(line);
    var n, silent := |words| + 1, PC.Silent(words);
    if n >= 3 && words[0] in {GET, GETS, BGET} then Gets(Keys(line))
    else if (n == 4 || n == 5) && words[0] in {PC.INCR, PC.DECR} then
      if |words[1]| > KEY_MAX_LENGTH || env.errnoSet(k) || !PC.IsLong(PC.Number(words[2])) then Nothing
      else Counts(words[1], words[0] == PC.INCR, PC.Number(words[2]))
    else if 3 <= n <= 5 && words[0] == PC.DELETE then
      if |words[1]| > KEY_MAX_LENGTH then Nothing
      else if n != (if silent then 5 else 4) then Deletes(words[1], 0)
      else if env.errnoSet(k) || !PC.IsLong(PC.Number(words[2])) then Nothing
      else Deletes(words[1], PC.Number(words[2]))
    else if 2 <= n <= 4 && words[0] == PC.FLUSH_ALL then
      if n == (if silent then 3 else 2) then Flushes(0)
      else if env.errnoSet(k) || !PC.IsLong(PC.Number(words[1])) then Nothing
      else Flushes(PC.Number(words[1]))
    else Nothing
  }

  /** Such a line has no data block: the next command begins right behind it. */
  lemma AskRecognised(env: PC.Env, k: nat, line: Bytes, rest: Bytes)
    requires line != [] && forall i :: 0 <= i < |line| ==> line[i] != Request.NL
    requires AskOf(env, k, line) != Nothing
    ensures var d := PC.ServerDecide(env);
      Request.Run(d, Request.Line, k, line + [Request.CR, Request.NL] + rest) ==
        Request.Prepend([Request.Command(line)], Request.Run(d, Request.Line, k + 1, rest))
  {
    hide Request.Run, Request.LineOf, Request.FindNl, Request.Prepend, PC.LineOutcome, AskOf;
    PC.LineAhead(line, rest);
    AskAnswers(env, k, line);
    Request.RunLine(PC.ServerDecide(env), k, line + [Request.CR, Request.NL] + rest);
  }

  lemma AskAnswers(env: PC.Env, k: nat, line: Bytes)
    requires AskOf(env, k, line) != Nothing
    ensures PC.LineOutcome(env, k, line).Answer?
  {
    hide PC.Tokens, PC.Number, PC.Silent, PC.UpdateOutcome, Keys;
  }

  // ----- What it does to the cache

  /** The lookups of a get command: up to a key that is too long, or an item that the lists have no place for. */
  function GetCommands(s: State, keys: seq<Bytes>, room: nat -> bool, i: nat): seq<Command>
    requires i <= |keys|
    decreases |keys| - i
  {
    if i == |keys| || |keys[i]| > KEY_MAX_LENGTH then []
    else
      var c := Get(keys[i], room(i));
      if GetItem(s, keys[i]).found.Some? && !room(i) then [c]
      else [c] + GetCommands(Step(s, c), keys, room, i + 1)
  }

  lemma GetCommandsStep(s: State, keys: seq<Bytes>, room: nat -> bool, i: nat)
    requires i < |keys| && |keys[i]| <= KEY_MAX_LENGTH
    ensures var t := Step(s, Get(keys[i], room(i)));
      Exec(s, GetCommands(s, keys, room, i)) ==
        if GetItem(s, keys[i]).found.Some? && !room(i) then t else Exec(t, GetCommands(t, keys, room, i + 1))
  {
    hide GetItem, Step;
    var c := Get(keys[i], room(i));
    assert ([c] + GetCommands(Step(s, c), keys, room, i + 1))[1..] == GetCommands(Step(s, c), keys, room, i + 1);
  }

  lemma NoMoreKeys(s: State, keys: seq<Bytes>, room: nat -> bool, i: nat)
    requires i <= |keys| && (i < |keys| ==> |keys[i]| > KEY_MAX_LENGTH)
    ensures Exec(s, GetCommands(s, keys, room, i)) == s
  {}

  /** process_get_command: the words of the line are cut seven at a time. `room` says by key whether the lists of the
      connection take the item. */
  method ProcessGetCommand(e: CacheEngine, line: Bytes, room: nat -> bool)
    requires e.Valid()
    modifies e, e.assoc, e.lru, e.slabs
    ensures e.Valid()
    ensures e.Abs() == Exec(old(e.Abs()), GetCommands(old(e.Abs()), Keys(line), room, 0))
  {
    hide CacheEngine.Parts, Inv, Step, Exec, GetCommands, GetItem, PC.Tokens, Behind;
    ghost var s, keys, all := e.Abs(), Keys(line), |line|;
    var rest, i, w := line, 0, 1;
    var words := PC.Tokens(line, PC.MAX_TOKENS - 1);
    NextCut(line, PC.MAX_TOKENS - 1, all);
    while true
      invariant e.Valid() && i <= |keys| && w <= |words| + 1 && |rest| <= all
      invariant Exec(s, GetCommands(s, keys, room, 0)) == Exec(e.Abs(), GetCommands(e.Abs(), keys, room, i))
      invariant words == PC.Tokens(rest, PC.MAX_TOKENS - 1)
      invariant keys[i..] == (if w <= |words| then words[w..] else []) + PC.Tokens(Behind(rest, PC.MAX_TOKENS - 1), all)
      decreases |rest|, |words| + 1 - w
    {
      if w < |words| {
        assert keys[i] == words[w] && keys[i + 1..] == keys[i..][1..];
        if |words[w]| > KEY_MAX_LENGTH {
          NoMoreKeys(e.Abs(), keys, room, i);
          return;
        }
        ghost var before := e.Abs();
        GetCommandsStep(before, keys, room, i);
        var it := ProcessGet(e, words[w], room(i));
        if it != NULL && !room(i) {
          return;
        }
        i, w := i + 1, w + 1;
      } else {
        NextCut(rest, PC.MAX_TOKENS - 1, all);
        NextCut(Behind(rest, PC.MAX_TOKENS - 1), PC.MAX_TOKENS - 1, all);
        if words == [] || Behind(rest, PC.MAX_TOKENS - 1) == [] {
          assert keys[i..] == [];
          NoMoreKeys(e.Abs(), keys, room, i);
          return;
        }
        rest := Behind(rest, PC.MAX_TOKENS - 1);
        words, w := PC.Tokens(rest, PC.MAX_TOKENS - 1), 0;
      }
    }
  }

  /** process_command for the lines without a data block: the engine makes exactly the steps that the line asks for.
      `grows` says that the delete queue can grow. */
  method ProcessLine(e: CacheEngine, env: PC.Env, k: nat, line: Bytes, room: nat -> bool, grows: bool, nsuffix: nat,
                     stale: nat -> Item, malloced: Addr)
    returns (found: bool, queued: bool, ghost text: Option<Bytes>, ghost o: Allocation)
    requires e.Valid() && e.PageOk(malloced) && forall n :: |stale(n).data| == n
    modifies e, e.assoc, e.lru, e.slabs
    ensures e.Valid()
    ensures
      var s, ask := old(e.Abs()), AskOf(env, k, line);
      match ask
      case Nothing => e.Abs() == s
      case Gets(keys) => e.Abs() == Exec(s, GetCommands(s, keys, room, 0))
      case Counts(key, incr, delta) =>
        && e.Abs() == Step(s, Arithmetic(key, text, o)) && found == GetItem(s, key).found.Some?
        && (Repair(GetItem(s, key).state, o).None? ==> Enabled(s, Arithmetic(key, text, o)))
        && (found ==>
            && GetItem(s, key).found.value in s.items
            && text == Counters.Calculated(incr, delta, false, s.items[GetItem(s, key).found.value].data))
      case Deletes(key, delay) =>
        && e.Abs() == Step(s, if found && delay != 0 && !queued then Get(key, false) else Delete(key, delay))
        && found == GetItem(s, key).found.Some? && (found && delay != 0 && grows ==> queued)
      case Flushes(delay) => e.Abs() == Step(s, FlushAll(delay))
  {
    hide CacheEngine.Parts, Inv, Step, Exec, GetCommands, GetItem, PC.Tokens, Keys, Repair, Enabled;
    hide Counters.Calculated;
    found, queued, text, o := false, false, None, Allocation(0, 0, None, None, stale(0));
    match AskOf(env, k, line)
    case Nothing =>
    case Gets(keys) =>
      GetsKeys(env, k, line);
      ProcessGetCommand(e, line, room);
    case Counts(key, incr, delta) =>
      found, text, o := ProcessArithmetic(e, key, incr, delta, false, nsuffix, stale, malloced);
    case Deletes(key, delay) =>
      found, queued := ProcessDelete(e, key, delay, grows);
    case Flushes(delay) =>
      ProcessFlushAll(e, delay);
  }

  lemma GetsKeys(env: PC.Env, k: nat, line: Bytes)
    requires AskOf(env, k, line).Gets?
    ensures AskOf(env, k, line).keys == Keys(line)
  {}

  // ----- From the bytes of a set and a get to what the get finds

  /** The words of a line without newlines. */
  lemma {:induction false} TokensAreWords(s: Bytes, max: nat)
    requires forall i :: 0 <= i < |s| ==> s[i] != Request.NL
    ensures forall w :: w in PC.Tokens(s, max) ==> PC.IsWord(w)
    decreases |s|
  {
    if max > 0 && s != [] && s[0] != PC.NUL {
      if s[0] == PC.SP {
        TokensAreWords(s[1..], max);
      } else {
        var e := PC.WordEnd(s);
        TokensAreWords(s[e..], max - 1);
        assert PC.IsWord(s[..e]);
      }
    }
  }

  lemma GetWord()
    ensures PC.IsWord(GET)
  {}

  /** `get key` asks for this key. */
  lemma GetLineAsks(env: PC.Env, k: nat, key: Bytes)
    requires PC.IsWord(key)
    ensures AskOf(env, k, PC.Join([GET, key])) == Gets([key])
    ensures PC.Join([GET, key]) != []
      && forall i :: 0 <= i < |PC.Join([GET, key])| ==> PC.Join([GET, key])[i] != Request.NL
  {
    hide PC.Tokens, PC.Number;
    var line := PC.Join([GET, key]);
    assert line == GET + [PC.SP] + key by {
      assert [GET, key][1..] == [key];
      assert PC.Join([key]) == key;
    }
    GetWord();
    PC.TokensOfJoin([GET, key], PC.MAX_TOKENS - 1);
    PC.TokensOfJoin([GET, key], |line|);
    PC.JoinBytes([GET, key]);
    assert [GET, key][1..] == [key];
  }

  /** A client sends a set with its data block and then a get of the same key, within one second: whatever follows,
      these three are recognised, and the get finds exactly the block, unless it is born expired or a flush time falls
      on this second. */
  lemma SetThenGet(env: PC.Env, k: nat, line: Bytes, data: Bytes, rest: Bytes, s: State, a: Addr, o: Allocation,
                   o2: Allocation)
    requires line != [] && forall i :: 0 <= i < |line| ==> line[i] != Request.NL
    requires PC.LineOutcome(env, k, line).Accept?
    requires |data| == PC.LineOutcome(env, k, line).vlen + 2 == |o.stale.data| && Counters.EndsLine(data)
    requires Inv(s) && UpdateOf(s, line).Some?
    requires
      var u := UpdateOf(s, line).value;
      && u.comm == Set && RunOk(s, UpdateCommands(u, data, a, o, o2))
      && AllocItem(s, u.key, u.exptime, o).found == Some(a)
    ensures
      var u, d := UpdateOf(s, line).value, PC.ServerDecide(env);
      var get, crlf := PC.Join([GET, u.key]), [Request.CR, Request.NL];
      && Request.Run(d, Request.Line, k, line + crlf + (data + (get + crlf + rest))) ==
        Request.Prepend([Request.Command(line), Request.Stored(data), Request.Command(get)],
          Request.Run(d, Request.Line, k + 2, rest))
      && AskOf(env, k + 1, get) == Gets([u.key])
    ensures
      var u := UpdateOf(s, line).value;
      var t := Exec(s, UpdateCommands(u, data, a, o, o2));
      var g := GetItem(t, u.key);
      && (g.found.Some? <==> (s.oldestLive == 0 || s.oldestLive != s.now) && (u.exptime == 0 || u.exptime > s.now))
      && (g.found.Some? ==> g.found.value in g.state.items && g.state.items[g.found.value].data == data)
  {
    hide Inv, AllocItem, AllocationOk, StoreItem, RemoveItem, GetItem, Repair, RunOk, Exec, Request.Run, PC.Tokens;
    hide PC.LineOutcome, PC.ServerDecide, AskOf, UpdateCommands, PC.Join, Has;
    var u, d := UpdateOf(s, line).value, PC.ServerDecide(env);
    var get, crlf := PC.Join([GET, u.key]), [Request.CR, Request.NL];
    KeyIsWord(s, line);
    GetLineAsks(env, k + 1, u.key);
    SetRequest(env, k, line, data, get + crlf + rest, s, a, o, o2);
    AskRecognised(env, k + 1, get, rest);
    Request.PrependTwice([Request.Command(line), Request.Stored(data)], [Request.Command(get)],
      Request.Run(d, Request.Line, k + 2, rest));
    var t := Exec(s, UpdateCommands(u, data, a, o, o2));
    FoundData(t, u.key, data, u.exptime);
  }

  lemma KeyIsWord(s: State, line: Bytes)
    requires (forall i :: 0 <= i < |line| ==> line[i] != Request.NL) && UpdateOf(s, line).Some?
    ensures PC.IsWord(UpdateOf(s, line).value.key)
  {
    hide PC.Tokens, PC.Number, PC.IsWord, Realtime;
    TokensAreWords(line, PC.MAX_TOKENS - 1);
  }

  lemma FoundData(t: State, key: Bytes, data: Bytes, exptime: nat)
    requires Has(t, key, data, exptime)
    ensures var g := GetItem(t, key);
      g.found.Some? ==> g.found.value in g.state.items && g.state.items[g.found.value].data == data
  {}
}
