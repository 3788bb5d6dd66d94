/** The request stream of a TCP connection: command lines and data blocks are cut out of whatever portions the
    network delivers. */
module Request {
  import opened Basics

  const NL: byte := 10
  const CR: byte := 13
  const DATA_BUFFER_SIZE: nat := 2048
  const READ_BUFFER_HIGHWAT: nat := 8192

  /** What process_command decides about a line: it answers, or makes an item of vlen + 2 bytes ready, or refuses
      to make one, or closes the connection. */
  datatype Outcome =
    Answer(noreply: bool) | Accept(vlen: Length, noreply: bool) | Refuse(vlen: Length, noreply: bool) | Quit

  /** The length a command line gives, a C int that is not negative. */
  type Length = n: int | 0 <= n <= INT_MAX

  datatype Event = Command(line: seq<byte>) | Stored(data: seq<byte>)

  // ----- The reference: one pass over the whole stream

  /** What the next bytes of the stream are: a command line, the rest of a data block, bytes to swallow, or nothing.
      A negative number of bytes to swallow is where the server loses its way. */
  datatype Mode = Line | Data(need: nat, got: seq<byte>) | Swallow(n: int) | Closed

  datatype Result = Result(events: seq<Event>, mode: Mode, k: nat, rest: seq<byte>)

  type Decide = (nat, seq<byte>) -> Outcome

  function FindNl(s: seq<byte>): (e: nat)
    ensures e <= |s| && (e < |s| ==> s[e] == NL) && forall i :: 0 <= i < e ==> s[i] != NL
    decreases |s|
  {
    if s == [] || s[0] == NL then 0 else 1 + FindNl(s[1..])
  }

  /** The command in front of a newline at `e`; a carriage return is dropped unless it is all there is. */
  function LineOf(s: seq<byte>, e: nat): seq<byte>
    requires e < |s|
  {
    if e > 1 && s[e - 1] == CR then s[..e - 1] else s[..e]
  }

  /** The mode after a command. A refusal without a reply does not reach the state that swallows the data block; the
      number of bytes to swallow is an int. */
  function After(o: Outcome): Mode {
    match o
    case Answer(_) => Line
    case Accept(vlen, _) => Data(vlen + 2, [])
    case Refuse(vlen, noreply) => if noreply then Line else Swallow(Int32(vlen + 2))
    case Quit => Closed
  }

  function Prepend(events: seq<Event>, r: Result): Result {
    r.(events := events + r.events)
  }

  function Run(d: Decide, mode: Mode, k: nat, s: seq<byte>): Result
    decreases |s|, if mode.Line? then 0 else 1
  {
    match mode
    case Line =>
      var e := FindNl(s);
      if e == |s| then Result([], Line, k, s)
      else Prepend([Command(LineOf(s, e))], Run(d, After(d(k, LineOf(s, e))), k + 1, s[e + 1..]))
    case Data(need, got) =>
      if |s| < need then Result([], Data(need - |s|, got + s), k, [])
      else Prepend([Stored(got + s[..need])], Run(d, Line, k, s[need..]))
    case Swallow(n) =>
      if n < 0 then Result([], mode, k, s)
      else if |s| < n then Result([], Swallow(n - |s|), k, [])
      else Run(d, Line, k, s[n..])
    case Closed => Result([], Closed, k, s)
  }

  lemma FindNlPrefix(s: seq<byte>, t: seq<byte>)
    requires FindNl(s) < |s|
    ensures FindNl(s + t) == FindNl(s) && LineOf(s + t, FindNl(s)) == LineOf(s, FindNl(s))
  {
    var e := FindNl(s);
    assert (s + t)[..e] == s[..e] && (s + t)[e] == s[e];
    assert forall i :: 0 <= i < e ==> (s + t)[i] == s[i];
    if e > 1 { assert (s + t)[..e - 1] == s[..e - 1]; }
  }

  lemma RunLine(d: Decide, k: nat, s: seq<byte>)
    requires FindNl(s) < |s|
    ensures var line := LineOf(s, FindNl(s));
      Run(d, Line, k, s) == Prepend([Command(line)], Run(d, After(d(k, line)), k + 1, s[FindNl(s) + 1..]))
  {}

  /** Part of a data block may be taken out ahead of the rest. */
  lemma RunData(d: Decide, need: nat, got: seq<byte>, k: nat, s: seq<byte>, j: nat)
    requires j <= need && j <= |s|
    ensures Run(d, Data(need, got), k, s) == Run(d, Data(need - j, got + s[..j]), k, s[j..])
  {
    hide Run;
    RunShort(d, Data(need, got), k, s);
    RunShort(d, Data(need - j, got + s[..j]), k, s[j..]);
    RunFull(d, Data(need, got), k, s);
    RunFull(d, Data(need - j, got + s[..j]), k, s[j..]);
    if |s| >= need {
      assert s[j..][..need - j] == s[j..need] && s[j..][need - j..] == s[need..];
      assert got + s[..need] == got + s[..j] + s[j..need];
    } else {
      assert got + s == got + s[..j] + s[j..];
    }
  }

  lemma RunSwallow(d: Decide, n: nat, k: nat, s: seq<byte>, j: nat)
    requires j <= n && j <= |s|
    ensures Run(d, Swallow(n), k, s) == Run(d, Swallow(n - j), k, s[j..])
  {
    if |s| >= n { assert s[j..][n - j..] == s[n..]; }
  }

  lemma RunShort(d: Decide, mode: Mode, k: nat, s: seq<byte>)
    ensures mode.Line? && FindNl(s) == |s| ==> Run(d, mode, k, s) == Result([], Line, k, s)
    ensures mode.Closed? ==> Run(d, mode, k, s) == Result([], Closed, k, s)
    ensures mode.Data? && |s| < mode.need ==>
      Run(d, mode, k, s) == Result([], Data(mode.need - |s|, mode.got + s), k, [])
    ensures mode.Swallow? && mode.n < 0 ==> Run(d, mode, k, s) == Result([], mode, k, s)
    ensures mode.Swallow? && |s| < mode.n ==> Run(d, mode, k, s) == Result([], Swallow(mode.n - |s|), k, [])
  {}

  lemma RunFull(d: Decide, mode: Mode, k: nat, s: seq<byte>)
    ensures mode.Data? && |s| >= mode.need ==>
      Run(d, mode, k, s) == Prepend([Stored(mode.got + s[..mode.need])], Run(d, Line, k, s[mode.need..]))
    ensures mode.Swallow? && |s| >= mode.n >= 0 ==> Run(d, mode, k, s) == Run(d, Line, k, s[mode.n..])
  {}

  lemma PrependTwice(a: seq<Event>, b: seq<Event>, r: Result)
    ensures Prepend(a, Prepend(b, r)) == Prepend(a + b, r)
  {
    assert a + (b + r.events) == a + b + r.events;
  }

  /** More input continues where the pass stopped: what has been recognised stays. */
  lemma {:induction false} RunMore(d: Decide, mode: Mode, k: nat, s: seq<byte>, t: seq<byte>)
    ensures var r := Run(d, mode, k, s); Run(d, mode, k, s + t) == Prepend(r.events, Run(d, r.mode, r.k, r.rest + t))
    decreases |s|, if mode.Line? then 1 else 3
  {
    hide Run, After, LineOf;
    RunShort(d, mode, k, s);
    match mode
    case Line => RunMoreLine(d, k, s, t);
    case Data(need, got) => RunMoreBlock(d, mode, need, k, s, t);
    case Swallow(n) => if n >= 0 { RunMoreBlock(d, mode, n, k, s, t); }
    case Closed =>
  }

  lemma {:induction false} RunMoreBlock(d: Decide, mode: Mode, n: nat, k: nat, s: seq<byte>, t: seq<byte>)
    requires (mode.Data? && mode.need == n) || (mode.Swallow? && mode.n == n)
    ensures var r := Run(d, mode, k, s); Run(d, mode, k, s + t) == Prepend(r.events, Run(d, r.mode, r.k, r.rest + t))
    decreases |s|, 2
  {
    hide Run, After, LineOf;
    RunShort(d, mode, k, s);
    if |s| < n {
      if mode.Data? { RunData(d, n, mode.got, k, s + t, |s|); } else { RunSwallow(d, n, k, s + t, |s|); }
      assert (s + t)[..|s|] == s && (s + t)[|s|..] == t == [] + t;
    } else {
      assert (s + t)[..n] == s[..n] && (s + t)[n..] == s[n..] + t;
      RunFull(d, mode, k, s);
      RunFull(d, mode, k, s + t);
      RunMore(d, Line, k, s[n..], t);
      var r := Run(d, Line, k, s[n..]);
      if mode.Data? { PrependTwice([Stored(mode.got + s[..n])], r.events, Run(d, r.mode, r.k, r.rest + t)); }
    }
  }

  lemma {:induction false} RunMoreLine(d: Decide, k: nat, s: seq<byte>, t: seq<byte>)
    ensures var r := Run(d, Line, k, s); Run(d, Line, k, s + t) == Prepend(r.events, Run(d, r.mode, r.k, r.rest + t))
    decreases |s|, 0
  {
    hide Run, After, LineOf;
    var e := FindNl(s);
    RunShort(d, Line, k, s);
    if e < |s| {
      var line := LineOf(s, e);
      FindNlPrefix(s, t);
      RunLine(d, k, s);
      RunLine(d, k, s + t);
      assert (s + t)[e + 1..] == s[e + 1..] + t;
      RunMore(d, After(d(k, line)), k + 1, s[e + 1..], t);
      var r := Run(d, After(d(k, line)), k + 1, s[e + 1..]);
      PrependTwice([Command(line)], r.events, Run(d, r.mode, r.k, r.rest + t));
    }
  }

  /** What one pass promises: a stored block is exactly the vlen + 2 bytes behind its command line, and the next command
      starts right behind it. */
  lemma StoredBlock(d: Decide, k: nat, s: seq<byte>)
    requires FindNl(s) < |s|
    ensures var line, rest := LineOf(s, FindNl(s)), s[FindNl(s) + 1..];
      d(k, line).Accept? && |rest| >= d(k, line).vlen + 2 ==>
        Run(d, Line, k, s) ==
          Prepend([Command(line), Stored(rest[..d(k, line).vlen + 2])],
            Run(d, Line, k + 1, rest[d(k, line).vlen + 2..]))
  {
    hide Run;
    var line, rest := LineOf(s, FindNl(s)), s[FindNl(s) + 1..];
    RunLine(d, k, s);
    if d(k, line).Accept? {
      var n := d(k, line).vlen + 2;
      RunFull(d, Data(n, []), k + 1, rest);
      if |rest| >= n {
        assert [] + rest[..n] == rest[..n];
        PrependTwice([Command(line)], [Stored(rest[..n])], Run(d, Line, k + 1, rest[n..]));
      }
    }
  }

  /** The data block of a refused command is skipped, and the next command read behind it, if and only if the client
      did not ask for silence and the length of the block fits an int. With noreply it is read as commands; a length
      that does not fit leaves a negative number of bytes to swallow. */
  lemma RefusedBlock(d: Decide, k: nat, s: seq<byte>)
    requires FindNl(s) < |s|
    ensures var line, rest := LineOf(s, FindNl(s)), s[FindNl(s) + 1..];
      d(k, line).Refuse? ==>
        var block, silent, r := d(k, line).vlen + 2, d(k, line).noreply, Run(d, Line, k, s);
        && (silent ==> r == Prepend([Command(line)], Run(d, Line, k + 1, rest)))
        && (!silent && |rest| >= block ==>
            (r == Prepend([Command(line)], Run(d, Line, k + 1, rest[block..])) <==> block <= INT_MAX))
        && (!silent && block > INT_MAX ==> r == Result([Command(line)], Swallow(block - 0x1_0000_0000), k + 1, rest))
  {
    hide Run;
    var line, rest := LineOf(s, FindNl(s)), s[FindNl(s) + 1..];
    RunLine(d, k, s);
    if d(k, line).Refuse? {
      var n := d(k, line).vlen + 2;
      IntWraps(n);
      RunFull(d, Swallow(Int32(n)), k + 1, rest);
      RunShort(d, Swallow(Int32(n)), k + 1, rest);
      if |rest| >= n { NoEvents(d, Line, k + 1, rest[n..]); }
    }
  }

  lemma IntWraps(n: nat)
    requires n <= INT_MAX + 2
    ensures Int32(n) == if n <= INT_MAX then n else n - 0x1_0000_0000
  {}

  // ----- Where the server loses its way

  predicate Astray(mode: Mode) { mode.Swallow? && mode.n < 0 }

  /** A refusal with a reply whose block is too long for an int. */
  predicate Overflows(o: Outcome) { Astray(After(o)) }

  /** The server does not lose its way on the stream. */
  predicate Sane(d: Decide, s: seq<byte>) { !Astray(Run(d, Line, 0, s).mode) }

  lemma OverflowsExact(o: Outcome)
    ensures Overflows(o) <==> o.Refuse? && !o.noreply && o.vlen + 2 > INT_MAX
  {
    if o.Refuse? { IntWraps(o.vlen + 2); }
  }

  /** A pass that recognises nothing stays where it is. */
  lemma {:induction false} NoEvents(d: Decide, mode: Mode, k: nat, s: seq<byte>)
    ensures var r := Run(d, mode, k, s);
      r.events == [] ==> r.k == k && (r.mode.Swallow? ==> mode.Swallow?) && (Astray(r.mode) ==> Astray(mode))
    decreases if mode.Line? then 0 else 1
  {
    if mode.Swallow? && 0 <= mode.n <= |s| { NoEvents(d, Line, k, s[mode.n..]); }
  }

  /** The server loses its way exactly if the last thing it recognises is a command that overflows. */
  lemma {:induction false} AstrayExact(d: Decide, mode: Mode, k: nat, s: seq<byte>)
    requires !Astray(mode)
    ensures Astray(Run(d, mode, k, s).mode) <==> EndsAstray(d, Run(d, mode, k, s))
    decreases |s|, if mode.Line? then 0 else 1
  {
    hide Run, After, LineOf, Overflows, FindNl, EndsAstray;
    RunShort(d, mode, k, s);
    RunFull(d, mode, k, s);
    NoEnd(d, Run(d, mode, k, s));
    match mode
    case Line => if FindNl(s) < |s| { AstrayLine(d, k, s); }
    case Data(need, got) =>
      if |s| >= need {
        AstrayExact(d, Line, k, s[need..]);
        NoEvents(d, Line, k, s[need..]);
        LastPrepended(d, Stored(got + s[..need]), Run(d, Line, k, s[need..]));
      }
    case Swallow(n) =>
      if |s| >= n { AstrayExact(d, Line, k, s[n..]); }
    case Closed =>
  }

  lemma {:induction false} AstrayLine(d: Decide, k: nat, s: seq<byte>)
    requires FindNl(s) < |s|
    ensures Astray(Run(d, Line, k, s).mode) <==> EndsAstray(d, Run(d, Line, k, s))
    decreases |s|, -1
  {
    hide Run, After, LineOf, EndsAstray;
    var line, rest := LineOf(s, FindNl(s)), s[FindNl(s) + 1..];
    var o := d(k, line);
    var r := Run(d, After(o), k + 1, rest);
    RunLine(d, k, s);
    NoEvents(d, After(o), k + 1, rest);
    LastPrepended(d, Command(line), r);
    if Astray(After(o)) { RunShort(d, After(o), k + 1, rest); } else { AstrayExact(d, After(o), k + 1, rest); }
    NoEnd(d, r);
  }

  lemma NoEnd(d: Decide, r: Result)
    ensures EndsAstray(d, r) ==> r.events != []
  {}

  lemma LastPrepended(d: Decide, e: Event, r: Result)
    ensures r.events != [] ==> (EndsAstray(d, Prepend([e], r)) <==> EndsAstray(d, r))
    ensures r.events == [] ==>
      (EndsAstray(d, Prepend([e], r)) <==> e.Command? && r.k > 0 && Overflows(d(r.k - 1, e.line)))
  {}

  predicate EndsAstray(d: Decide, r: Result) {
    r.events != [] &&
    var last := r.events[|r.events| - 1];
    last.Command? && r.k > 0 && Overflows(d(r.k - 1, last.line))
  }

  // ----- The connection

  /** What read returns. A read of `want` bytes delivers at most that many; 0 is end of stream, -1 means that there is
      nothing to read now, and less is an error. */
  function Arrives(net: seq<byte>, avail: nat, want: int): (res: int)
    requires avail > 0
    ensures res <= avail && res <= |net| && (want > 0 && net != [] ==> res > 0) && (want <= 0 ==> res == want)
  {
    if want <= 0 then want
    else if |net| == 0 then -1
    else
      var n := if want < avail then want else avail;
      if |net| < n then |net| else n
  }

  datatype ConnState = ConnRead | ConnNread | ConnSwallow | ConnWrite | ConnClosing

  /** What the surroundings do in one turn of drive_machine, whatever its state: what the reads of try_read_network are
      offered and which of its reallocs succeed, what a single read is offered, and whether the reply is sent. */
  datatype Turn = Turn(wants: seq<int>, grows: nat -> bool, want: int, sent: bool)

  /** A socket that gives what there is and takes what it gets, and memory. */
  ghost predicate Willing(t: Turn) {
    && t.wants != [] && (forall i :: 0 <= i < |t.wants| ==> t.wants[i] > 0) && (forall i :: t.grows(i))
    && t.want > 0 && t.sent
  }

  lemma PartOf(s: seq<byte>, i: nat, j: nat, k: nat)
    requires i <= j <= k <= |s|
    ensures s[i..k][..j - i] == s[i..j]
  {}

  class Connection {
    const decide: Decide
    var state: ConnState
    var writeAndGo: ConnState
    var rbuf: array<byte>
    var rcurr: int
    var rbytes: int
    var item: array<byte>
    var ritem: nat
    var rlbytes: nat
    var sbytes: int
    var noreply: bool
    /** What the client will still send. */
    var net: seq<byte>
    /** What has been read from the socket, the commands seen, and what was made of it. */
    ghost var stream: seq<byte>
    var commands: nat
    var events: seq<Event>
    /** The network closed the connection, or rbuf could not grow; some of what was received may never be looked at. */
    ghost var hungUp: bool

    /** The unconsumed part lies inside rbuf, whose size is an int. */
    predicate Inside()
      reads this, rbuf
    {
      0 <= rcurr && 0 <= rbytes && rcurr + rbytes <= rbuf.Length && 0 < rbuf.Length <= INT_MAX
    }

    /** vlen + 2 as an int, or what is left of it. */
    predicate IsSwallow(n: int) { 0 <= n <= INT_MAX || n == 0 - INT_MAX || n == 0 - INT_MAX - 1 }

    /** The received part that has not been consumed. */
    ghost function Unconsumed(): seq<byte>
      reads this, rbuf
      requires Inside()
    {
      rbuf[rcurr..rcurr + rbytes]
    }

    ghost function CurrentMode(): Mode
      reads this, item
      requires state == ConnNread ==> ritem + rlbytes == item.Length
    {
      match state
      case ConnRead => Line
      case ConnNread => Data(rlbytes, item[..ritem])
      case ConnSwallow => Swallow(sbytes)
      case ConnWrite => if writeAndGo == ConnSwallow then Swallow(sbytes) else Line
      case ConnClosing => Closed
    }

    /** The unconsumed bytes lie inside rbuf, and what has been made of the stream so far, continued with them, is what
        one pass over the whole stream makes of it. */
    ghost predicate Valid()
      reads this, rbuf, item
    {
      && Inside() && IsSwallow(sbytes) && rbuf != item
      && (state == ConnNread ==> ritem + rlbytes == item.Length)
      && (state == ConnWrite ==>
          writeAndGo == ConnRead || writeAndGo == ConnSwallow || (hungUp && writeAndGo == ConnClosing))
      && (hungUp ==> state == ConnClosing || (state == ConnWrite && writeAndGo == ConnClosing))
      && (if hungUp then events <= Run(decide, Line, 0, stream).events
          else Explained(decide, stream, events, CurrentMode(), commands, Unconsumed()))
    }

    /** A new connection on which the client will send `net`. */
    constructor (decide: Decide, net: seq<byte>)
      ensures Valid() && state == ConnRead && stream == [] && events == [] && this.net == net && this.decide == decide
      ensures fresh(rbuf) && fresh(item)
    {
      this.decide := decide;
      this.net := net;
      state, writeAndGo := ConnRead, ConnRead;
      rbuf := new byte[DATA_BUFFER_SIZE];
      item := new byte[0];
      rcurr, rbytes, ritem, rlbytes, sbytes, commands := 0, 0, 0, 0, 0, 0;
      stream, events, noreply, hungUp := [], [], false, false;
      new;
      assert Unconsumed() == [];
    }

    /** conn_set_state to conn_read, with conn_shrink. */
    method BackToRead()
      requires Inside()
      modifies this`state, this`rbuf, this`rcurr, rbuf
      ensures state == ConnRead && Inside()
      ensures Unconsumed() == old(Unconsumed()) && (rbuf == old(rbuf) || fresh(rbuf))
    {
      if rbuf.Length > READ_BUFFER_HIGHWAT && rbytes < DATA_BUFFER_SIZE {
        ghost var was := Unconsumed();
        MoveToFront();
        var smaller := new byte[DATA_BUFFER_SIZE](i requires 0 <= i < DATA_BUFFER_SIZE reads this, rbuf =>
          if i < rbuf.Length then rbuf[i] else 0);
        assert smaller[..rbytes] == rbuf[..rbytes] == was;
        rbuf := smaller;
        rcurr := 0;
      }
      state := ConnRead;
    }

    /** memmove of the unconsumed bytes to the start of rbuf. */
    method MoveToFront()
      requires Inside()
      modifies this`rcurr, rbuf
      ensures rcurr == 0 && Unconsumed() == old(Unconsumed())
    {
      if rcurr != 0 {
        forall i | 0 <= i < rbytes {
          rbuf[i] := rbuf[rcurr + i];
        }
        rcurr := 0;
      }
    }

    /** read: what arrives is the beginning of what the client still has to send. */
    method Read(avail: nat, want: int) returns (res: int, chunk: seq<byte>)
      requires avail > 0
      modifies this`net, this`stream
      ensures res == Arrives(old(net), avail, want) && |chunk| == (if res > 0 then res else 0) && |chunk| <= avail
      ensures stream == old(stream) + chunk && old(net) == chunk + net
    {
      res := Arrives(net, avail, want);
      chunk := [];
      if res > 0 {
        chunk := net[..res];
        net := net[res..];
        stream := stream + chunk;
      }
    }

    // ----- conn_read

    /** memchr. */
    method FindNewline() returns (e: nat)
      requires Inside()
      ensures e == FindNl(Unconsumed())
    {
      e := 0;
      while e < rbytes && rbuf[rcurr + e] != NL
        invariant e <= rbytes && e <= FindNl(Unconsumed())
      {
        e := e + 1;
      }
    }

    /** What process_command does to the state of the connection. */
    method ProcessCommand(line: seq<byte>)
      requires state == ConnRead && IsSwallow(sbytes)
      modifies this`state, this`writeAndGo, this`item, this`ritem, this`rlbytes, this`sbytes, this`noreply
      modifies this`commands, this`events
      ensures commands == old(commands) + 1 && events == old(events) + [Command(line)]
      ensures IsSwallow(sbytes)
      ensures state == ConnNread ==> ritem + rlbytes == item.Length
      ensures state == ConnWrite ==> writeAndGo == ConnRead || writeAndGo == ConnSwallow
      ensures CurrentMode() == After(decide(old(commands), line)) && (item == old(item) || fresh(item))
    {
      var outcome := decide(commands, line);
      commands := commands + 1;
      events := events + [Command(line)];
      match outcome
      case Answer(silent) =>
        OutString(silent);
      case Accept(vlen, silent) =>
        noreply := silent;
        item := new byte[vlen + 2];
        ritem, rlbytes := 0, item.Length;
        state := ConnNread;
      case Refuse(vlen, silent) =>
        OutString(silent);
        writeAndGo := ConnSwallow;
        IntWraps(vlen + 2);
        sbytes := Int32(vlen + 2);
      case Quit =>
        state := ConnClosing;
    }

    /** out_string while a command is processed. */
    method OutString(silent: bool)
      requires state == ConnRead
      modifies this`state, this`writeAndGo
      ensures silent ==> state == ConnRead && writeAndGo == old(writeAndGo)
      ensures !silent ==> state == ConnWrite && writeAndGo == ConnRead
    {
      if !silent {
        state := ConnWrite;
        writeAndGo := ConnRead;
      }
    }

    /** The command is cut out and terminated inside rbuf, which leaves what follows it alone. */
    method CutLine(e: nat) returns (line: seq<byte>)
      requires Inside() && e == FindNl(Unconsumed()) < rbytes
      modifies rbuf
      ensures line == LineOf(old(Unconsumed()), e)
      ensures rbuf[rcurr + e + 1..rcurr + rbytes] == old(Unconsumed())[e + 1..]
    {
      hide FindNl, LineOf;
      ghost var u := Unconsumed();
      LineEnd(u, e);
      var el := if e > 1 && rbuf[rcurr + e - 1] == CR then e - 1 else e;
      line := rbuf[rcurr..rcurr + el];
      PartOf(rbuf[..], rcurr, rcurr + el, rcurr + rbytes);
      rbuf[rcurr + el] := 0;
    }

    /** The line that ends at offset `e` is processed. */
    method ConsumeLine(e: nat)
      requires Valid() && state == ConnRead && !hungUp && e == FindNl(Unconsumed()) < rbytes
      modifies this`state, this`writeAndGo, this`item, this`ritem, this`rlbytes, this`sbytes, this`noreply
      modifies this`commands, this`events
      modifies this`rbytes, this`rcurr, rbuf
      ensures Valid() && rbytes < old(rbytes) && events == old(events + [Command(LineOf(Unconsumed(), e))])
      ensures item == old(item) || fresh(item)
    {
      hide Run, Explained, FindNl, After, LineOf;
      ExplainLine(decide, stream, events, commands, Unconsumed());
      var line := CutLine(e);
      ProcessCommand(line);
      rbytes := rbytes - (e + 1);
      rcurr := rcurr + (e + 1);
    }

    /** try_read_command: when there is no complete line, everything received has been recognised. */
    method TryReadCommand() returns (found: bool)
      requires Valid() && state == ConnRead && !hungUp
      modifies this`state, this`writeAndGo, this`item, this`ritem, this`rlbytes, this`sbytes, this`noreply
      modifies this`commands, this`events
      modifies this`rbytes, this`rcurr, rbuf
      ensures Valid() && old(events) <= events && (item == old(item) || fresh(item))
      ensures found <==> old(FindNl(Unconsumed()) < rbytes)
      ensures found ==>
        rbytes < old(rbytes) && events == old(events + [Command(LineOf(Unconsumed(), FindNl(Unconsumed())))])
      ensures !found ==> state == ConnRead && events == old(events) == Run(decide, Line, 0, stream).events
      ensures !found ==> rbytes == old(rbytes)
    {
      hide Run, Explained, LineOf;
      NothingMore(decide, stream, events, commands, Unconsumed());
      if rbytes == 0 {
        return false;
      }
      var e := FindNewline();
      if e == rbytes {
        return false;
      }
      ConsumeLine(e);
      found := true;
    }

    /** Doubling of rbuf. */
    method GrowBuffer()
      requires rcurr == 0 && 0 <= rbytes <= rbuf.Length <= INT_MAX / 2 && rbuf.Length > 0
      modifies this`rbuf
      ensures Inside() && rcurr + rbytes < rbuf.Length && fresh(rbuf) && rbuf[..rbytes] == old(rbuf[..rbytes])
    {
      var bigger := new byte[2 * rbuf.Length](i requires 0 <= i reads this, rbuf =>
        if i < rbuf.Length then rbuf[i] else 0);
      assert bigger[..rbytes] == rbuf[..rbytes];
      rbuf := bigger;
    }

    method Copy(dst: array<byte>, at: nat, data: seq<byte>)
      requires at + |data| <= dst.Length
      modifies dst
      ensures Pasted(old(dst[..]), dst[..], at, data)
    {
      forall i | 0 <= i < |data| {
        dst[at + i] := data[i];
      }
    }

    /** The network closed the connection, or failed. */
    method HangUp()
      requires Valid() && !hungUp
      modifies this`state, this`hungUp
      ensures Valid() && hungUp && state == ConnClosing
    {
      hide Explained, Run;
      EventsSoFar(decide, stream, events, CurrentMode(), commands, Unconsumed());
      state := ConnClosing;
      hungUp := true;
    }

    /** rbuf cannot grow: what it holds is dropped, and the connection closes once the error has been sent. */
    method GiveUp()
      requires Valid() && !hungUp
      modifies this`state, this`writeAndGo, this`rbytes, this`hungUp
      ensures Valid() && hungUp && state == ConnWrite && writeAndGo == ConnClosing
    {
      hide Explained, Run;
      EventsSoFar(decide, stream, events, CurrentMode(), commands, Unconsumed());
      rbytes := 0;
      state, writeAndGo := ConnWrite, ConnClosing;
      hungUp := true;
    }

    /** What was read follows what is unconsumed. */
    method AddInput(chunk: seq<byte>)
      requires Inside() && rcurr == 0 && rbytes + |chunk| <= rbuf.Length
      modifies this`rbytes, rbuf
      ensures Inside() && rbytes == old(rbytes) + |chunk| && Unconsumed() == old(Unconsumed()) + chunk
    {
      hide Pasted;
      ghost var was := rbuf[..];
      Copy(rbuf, rbytes, chunk);
      PastedFront(was, rbuf[..], rbytes, chunk);
      rbytes := rbytes + |chunk|;
      assert rbuf[..rbytes] == rbuf[..][..rbytes];
    }

    /** One read into the free end of rbuf. */
    method ReadMore(want: int) returns (res: int)
      requires Valid() && state == ConnRead && !hungUp && rcurr == 0 && rbytes < rbuf.Length
      modifies this`rbytes, this`net, this`stream, rbuf
      ensures Valid() && old(stream) + old(net) == stream + net
      ensures res == Arrives(old(net), old(rbuf.Length - rbytes), want)
      ensures res > 0 ==> rbytes == old(rbytes) + res && |stream| == |old(stream)| + res
      ensures res <= 0 ==> rbytes == old(rbytes) && stream == old(stream)
    {
      hide Explained, Run, Pasted;
      ghost var u, sofar := Unconsumed(), stream;
      var chunk;
      res, chunk := Read(rbuf.Length - rbytes, want);
      AddInput(chunk);
      Received(decide, sofar, events, Line, commands, u, chunk);
    }

    /** Room for another read, by doubling rbuf if it is full and its new size fits an int. */
    method MakeRoom(grows: bool) returns (ok: bool)
      requires Valid() && state == ConnRead && !hungUp && rcurr == 0
      modifies this`rbuf
      ensures Valid() && (rbuf == old(rbuf) || fresh(rbuf))
      ensures ok <==> (grows && old(rbuf.Length) <= INT_MAX / 2) || old(rbytes < rbuf.Length)
      ensures if ok then rbytes < rbuf.Length else rbuf == old(rbuf)
    {
      hide Explained, Run;
      if rbytes < rbuf.Length {
        return true;
      }
      if rbuf.Length > INT_MAX / 2 || !grows {
        return false;
      }
      ghost var u := Unconsumed();
      GrowBuffer();
      assert Unconsumed() == u;
      ok := true;
    }

    /** One turn of the loop of try_read_network, and whether there is another one. */
    method ReadOnce(want: int, grows: bool) returns (again: bool, got: bool)
      requires Valid() && state == ConnRead && !hungUp && rcurr == 0
      modifies this`rbuf, this`rbytes, this`net, this`stream, this`state, this`writeAndGo, this`hungUp, rbuf
      ensures Valid() && old(stream) + old(net) == stream + net && (state == ConnRead <==> !hungUp)
      ensures (rbuf == old(rbuf) || fresh(rbuf)) && (again ==> got && !hungUp) && rcurr == 0
      ensures |stream| >= |old(stream)| && (if hungUp then got else got <==> |stream| > |old(stream)|)
      ensures want > 0 && old(net) != [] ==>
        (grows && old(rbuf.Length) <= INT_MAX / 2) || old(rbytes < rbuf.Length) ==> |stream| > |old(stream)|
      ensures !hungUp ==> rbytes - old(rbytes) == |stream| - |old(stream)|
      ensures want > 0 && grows && old(|stream|) <= INT_MAX / 2 ==> !hungUp && (old(net) != [] ==> got)
    {
      hide Explained, Run;
      ShortRest(decide, stream, events, Line, commands, Unconsumed());
      again, got := false, false;
      var room := MakeRoom(grows);
      if !room {
        GiveUp();
        return false, true;
      }
      var avail := rbuf.Length - rbytes;
      var res := ReadMore(want);
      if res > 0 {
        again, got := res == avail, true;
      } else if res != -1 {
        got := true;
        HangUp();
      }
    }

    /** try_read_network: each of `wants` is what one read is offered, `grows` says which reallocs succeed. One whose
        size does not fit an int does not. */
    method TryReadNetwork(wants: seq<int>, grows: nat -> bool) returns (gotdata: bool)
      requires Valid() && state == ConnRead && !hungUp
      modifies this`rbuf, this`rcurr, this`rbytes, this`net, this`stream, this`state, this`writeAndGo, this`hungUp, rbuf
      ensures Valid() && old(stream) + old(net) == stream + net && (state == ConnRead <==> !hungUp)
      ensures rbuf == old(rbuf) || fresh(rbuf)
      ensures |stream| >= |old(stream)| && (if hungUp then gotdata else gotdata <==> |stream| > |old(stream)|)
      ensures wants != [] && wants[0] > 0 && old(net) != [] ==>
        (grows(0) && old(rbuf.Length) <= INT_MAX / 2) || old(rbytes < rbuf.Length) ==> |stream| > |old(stream)|
      ensures !hungUp ==> rbytes - old(rbytes) == |stream| - |old(stream)|
      ensures
        && (forall i :: 0 <= i < |wants| ==> wants[i] > 0 && grows(i)) && old(|stream|) + old(|net|) <= INT_MAX / 2
        ==> !hungUp && (wants != [] && old(net) != [] ==> |stream| > |old(stream)|)
    {
      hide Explained, Run;
      MoveToFront();
      gotdata := false;
      for i := 0 to |wants|
        invariant Valid() && state == ConnRead && !hungUp && rcurr == 0
        invariant old(stream) + old(net) == stream + net && (rbuf == old(rbuf) || fresh(rbuf))
        invariant |stream| >= |old(stream)| && (gotdata <==> |stream| > |old(stream)|)
        invariant rbytes - old(rbytes) == |stream| - |old(stream)|
        invariant |stream| + |net| == old(|stream|) + old(|net|)
        invariant
          if i == 0 then net == old(net) && rbytes == old(rbytes) && rbuf.Length == old(rbuf.Length) else gotdata
      {
        var again, got := ReadOnce(wants[i], grows(i));
        gotdata := gotdata || got;
        if !again {
          break;
        }
      }
    }

    // ----- conn_nread and conn_swallow

    /** complete_nread: the item is complete. */
    method CompleteNread()
      requires Valid() && state == ConnNread && rlbytes == 0
      modifies this`state, this`writeAndGo, this`events, this`rbuf, this`rcurr, rbuf
      ensures Valid() && state != ConnNread && events == old(events + [Stored(item[..])])
      ensures (rbuf == old(rbuf) || fresh(rbuf))
    {
      hide Explained, Run;
      assert item[..ritem] == item[..];
      ExplainStored(decide, stream, events, commands, item[..], Unconsumed());
      events := events + [Stored(item[..])];
      if noreply {
        BackToRead();
      } else {
        state := ConnWrite;
        writeAndGo := ConnRead;
      }
    }

    /** The next bytes of the item. */
    method Append(data: seq<byte>)
      requires ritem + rlbytes == item.Length && |data| <= rlbytes
      modifies this`ritem, this`rlbytes, item
      ensures ritem + rlbytes == item.Length && rlbytes == old(rlbytes) - |data|
      ensures item[..ritem] == old(item[..ritem]) + data
    {
      hide Pasted;
      ghost var was := item[..];
      Copy(item, ritem, data);
      PastedFront(was, item[..], ritem, data);
      ritem := ritem + |data|;
      rlbytes := rlbytes - |data|;
      assert item[..ritem] == item[..][..ritem];
    }

    /** The item is filled from what rbuf still holds. */
    method FillFromBuffer()
      requires Valid() && state == ConnNread && rlbytes > 0 && rbytes > 0
      modifies this`rcurr, this`rbytes, this`ritem, this`rlbytes, item
      ensures Valid() && (rlbytes == 0 || rbytes == 0) && old(rlbytes) - rlbytes == old(rbytes) - rbytes
    {
      hide Explained, Run, Pasted;
      ghost var u, got := Unconsumed(), item[..ritem];
      var tocopy := if rbytes > rlbytes then rlbytes else rbytes;
      ExplainPart(decide, stream, events, rlbytes, got, commands, u, tocopy);
      var data := rbuf[rcurr..rcurr + tocopy];
      assert data == u[..tocopy];
      Append(data);
      rcurr := rcurr + tocopy;
      rbytes := rbytes - tocopy;
      assert Unconsumed() == u[tocopy..];
    }

    /** The item is filled straight from the socket. */
    method FillFromSocket(want: int) returns (res: int)
      requires Valid() && state == ConnNread && rlbytes > 0 && rbytes == 0
      modifies this`ritem, this`rlbytes, this`net, this`stream, item
      ensures Valid() && old(stream) + old(net) == stream + net && res == Arrives(old(net), old(rlbytes), want)
      ensures rlbytes == old(rlbytes) - if res > 0 then res else 0
      ensures |net| == old(|net|) - if res > 0 then res else 0
    {
      hide Explained, Run, Pasted;
      ghost var got, sofar := item[..ritem], stream;
      assert Unconsumed() == [];
      var chunk;
      res, chunk := Read(rlbytes, want);
      SocketData(decide, sofar, events, rlbytes, got, commands, chunk);
      Append(chunk);
      assert Unconsumed() == [];
    }

    /** conn_nread: the item is filled from rbuf first, then from the socket. */
    method Nread(want: int)
      requires Valid() && state == ConnNread
      modifies this`state, this`writeAndGo, this`events, this`rbuf, this`rcurr, this`rbytes, this`ritem, this`rlbytes
      modifies this`net, this`stream, this`hungUp, rbuf, item
      ensures Valid() && old(stream) + old(net) == stream + net && (rbuf == old(rbuf) || fresh(rbuf))
      ensures old(events) <= events
      ensures old(rlbytes) == 0 ==> state != ConnNread && events == old(events + [Stored(item[..])])
      ensures old(rlbytes) == 0 ==> rbytes == old(rbytes) && net == old(net)
      ensures old(rlbytes) > 0 && old(rbytes) == 0 ==> rbytes == 0
      ensures old(rlbytes) > 0 && !hungUp ==>
        state == ConnNread && (rbytes + |net|) + (old(rlbytes) - rlbytes) == old(rbytes + |net|)
      ensures want > 0 ==> !hungUp
      ensures old(rlbytes) > 0 && old(rbytes) > 0 ==>
        (rlbytes == 0 || rbytes == 0) && old(rlbytes) - rlbytes == old(rbytes) - rbytes && stream == old(stream)
      ensures old(rlbytes) > 0 && old(rbytes) == 0 && want > 0 && old(net) != [] ==> rlbytes < old(rlbytes) && !hungUp
      ensures old(rlbytes) > 0 ==> events == old(events)
    {
      hide Explained, Run;
      if rlbytes == 0 {
        CompleteNread();
      } else if rbytes > 0 {
        FillFromBuffer();
      } else {
        var res := FillFromSocket(want);
        if res <= 0 && res != -1 {
          HangUp();
        }
      }
    }

    /** Bytes to be swallowed are dropped from rbuf; a negative number of them takes rcurr out of it. */
    method DropBuffered()
      requires Valid() && state == ConnSwallow && sbytes != 0 && rbytes > 0
      modifies this`rcurr, this`rbytes, this`sbytes
      ensures Inside() <==> old(sbytes) > 0
      ensures old(sbytes) > 0 ==>
        Valid() && (sbytes == 0 || rbytes == 0) && old(sbytes) - sbytes == old(rbytes) - rbytes
    {
      hide Explained, Run;
      ghost var u := Unconsumed();
      var tocopy := if rbytes > sbytes then sbytes else rbytes;
      if sbytes > 0 { ExplainDropped(decide, stream, events, sbytes, commands, u, tocopy); }
      sbytes := sbytes - tocopy;
      rcurr := rcurr + tocopy;
      rbytes := rbytes - tocopy;
      assert tocopy > 0 ==> Unconsumed() == u[tocopy..];
    }

    /** The count that conn_swallow gives to read: an int turned into a size_t. */
    function SwallowCount(): nat
      reads this, rbuf
    {
      (if rbuf.Length > sbytes then sbytes else rbuf.Length) % 0x1_0000_0000_0000_0000
    }

    lemma SwallowCountExact()
      requires Inside() && IsSwallow(sbytes)
      ensures SwallowCount() <= rbuf.Length <==> sbytes >= 0
      ensures sbytes >= 0 ==> SwallowCount() == Least(rbuf.Length, sbytes)
    {}

    /** Bytes to be swallowed are read and dropped. */
    method ReadAndDrop(want: int) returns (res: int)
      requires Valid() && state == ConnSwallow && sbytes > 0 && rbytes == 0
      modifies this`sbytes, this`net, this`stream, rbuf
      ensures Valid() && old(stream) + old(net) == stream + net
      ensures res == Arrives(old(net), old(SwallowCount()), want)
      ensures sbytes == old(sbytes) - if res > 0 then res else 0
      ensures |net| == old(|net|) - if res > 0 then res else 0
    {
      hide Explained, Run, Pasted;
      ghost var sofar := stream;
      assert Unconsumed() == [];
      var chunk;
      SwallowCountExact();
      res, chunk := Read(SwallowCount(), want);
      SocketDropped(decide, sofar, events, sbytes, commands, chunk);
      Overwrite(chunk);
      sbytes := sbytes - |chunk|;
    }

    /** Bytes that nobody will look at land at the start of rbuf. */
    method Overwrite(chunk: seq<byte>)
      requires |chunk| <= rbuf.Length && Inside() && rbytes == 0
      modifies rbuf
      ensures Unconsumed() == []
    {
      Copy(rbuf, 0, chunk);
    }

    /** conn_swallow. With a negative number of bytes to swallow it loses its way: rcurr leaves rbuf, or read is asked
        for more bytes than rbuf holds. Nothing is claimed from then on. */
    method SwallowData(want: int) returns (astray: bool)
      requires Valid() && state == ConnSwallow
      modifies this`state, this`rbuf, this`rcurr, this`rbytes, this`sbytes, this`net, this`stream, this`hungUp, rbuf
      ensures astray <==> old(sbytes) < 0
      ensures astray ==> stream == old(stream) && net == old(net)
      ensures astray && old(rbytes) > 0 ==> !Inside()
      ensures astray && old(rbytes) == 0 ==> SwallowCount() > rbuf.Length
      ensures !astray ==> Valid() && old(stream) + old(net) == stream + net && (rbuf == old(rbuf) || fresh(rbuf))
      ensures old(sbytes) == 0 ==> state == ConnRead && rbytes == old(rbytes) && net == old(net)
      ensures old(sbytes) > 0 && old(rbytes) == 0 ==> rbytes == 0
      ensures old(sbytes) > 0 && !hungUp ==>
        state == ConnSwallow && (rbytes + |net|) + (old(sbytes) - sbytes) == old(rbytes + |net|)
      ensures want > 0 ==> !hungUp
      ensures old(sbytes) > 0 && old(rbytes) > 0 ==>
        (sbytes == 0 || rbytes == 0) && old(sbytes) - sbytes == old(rbytes) - rbytes && stream == old(stream)
      ensures old(sbytes) > 0 && old(rbytes) == 0 && want > 0 && old(net) != [] ==> sbytes < old(sbytes) && !hungUp
    {
      hide Explained, Run;
      astray := sbytes < 0;
      if sbytes == 0 {
        ExplainSwallowed(decide, stream, events, commands, Unconsumed());
        BackToRead();
      } else if rbytes > 0 {
        DropBuffered();
      } else if astray {
        SwallowCountExact();
      } else {
        var res := ReadAndDrop(want);
        if res <= 0 && res != -1 {
          HangUp();
        }
      }
    }

    /** The end of conn_write and conn_mwrite. */
    method FinishReply()
      requires Valid() && state == ConnWrite
      modifies this`state, this`rbuf, this`rcurr, rbuf
      ensures Valid() && state == old(writeAndGo) && (rbuf == old(rbuf) || fresh(rbuf))
    {
      hide Explained, Run;
      if writeAndGo == ConnRead {
        BackToRead();
      } else {
        state := writeAndGo;
      }
    }

    /** Nothing more will happen: the connection closes, or everything has arrived and it waits for more. */
    ghost predicate Settled()
      reads this, rbuf
      requires Inside()
    {
      || state == ConnClosing
      || (net == [] && match state
          case ConnRead => FindNl(Unconsumed()) == rbytes
          case ConnNread => rlbytes > 0 && rbytes == 0
          case ConnSwallow => sbytes > 0 && rbytes == 0
          case _ => false)
    }

    /** How many more turns there can be before that. */
    function Potential(): int
      reads this
    {
      4 * rbytes + 5 * |net| + match state
        case ConnNread => 3
        case ConnWrite => 2
        case ConnSwallow => 1
        case _ => 0
    }

    /** One turn of drive_machine. */
    method TakeTurn(t: Turn) returns (astray: bool)
      requires Valid()
      modifies this, rbuf, item
      ensures old(stream) + old(net) == stream + net
      ensures astray ==> !Sane(decide, stream) && events == old(events) && stream == old(stream)
      ensures !astray ==> Valid() && (rbuf == old(rbuf) || fresh(rbuf)) && (item == old(item) || fresh(item))
      ensures old(events) <= events
      ensures Willing(t) && !old(hungUp) && |stream| + |net| <= INT_MAX / 2 && !astray ==>
        !hungUp && (old(Settled()) || Potential() < old(Potential()))
    {
      hide Explained, Run, FindNl;
      astray := false;
      match state
      case ConnRead =>
        var found := TryReadCommand();
        if !found {
          ghost var sofar, ahead := stream, net;
          var gotdata := TryReadNetwork(t.wants, t.grows);
          assert |sofar| + |ahead| == |stream| + |net|;
        }
      case ConnNread =>
        Nread(t.want);
      case ConnSwallow =>
        ExplainAstray(decide, stream, events, CurrentMode(), commands, Unconsumed());
        astray := SwallowData(t.want);
      case ConnWrite =>
        if t.sent {
          FinishReply();
        }
      case ConnClosing =>
    }

    /** drive_machine, for any way the network splits the input: the events are always a beginning of what one pass
        over everything received recognises. It loses its way only on a stream that is not sane. Given enough turns on a
        sane stream, with a willing socket and memory, it recognises everything in the stream. */
    method Drive(turns: seq<Turn>) returns (astray: bool)
      requires Valid() && !hungUp
      modifies this, rbuf, item
      ensures old(stream) + old(net) == stream + net
      ensures events <= Run(decide, Line, 0, stream).events
      ensures Sane(decide, stream) ==> !astray
      ensures !astray ==> Valid()
      ensures
        var whole := old(stream) + old(net);
        && Sane(decide, whole) && |whole| <= INT_MAX / 2
        && |turns| > old(Potential()) && (forall i :: 0 <= i < |turns| ==> Willing(turns[i]))
        ==> !astray && !hungUp && events == Run(decide, Line, 0, whole).events
    {
      hide Explained, Run, Sane, Willing, FindNl, Settled;
      ghost var whole, before := stream + net, Potential();
      ghost var willing := |whole| <= INT_MAX / 2 && forall i :: 0 <= i < |turns| ==> Willing(turns[i]);
      ghost var all := Run(decide, Line, 0, whole).events;
      astray := false;
      Known();
      for i := 0 to |turns|
        invariant !astray && Valid() && whole == stream + net && events <= Run(decide, Line, 0, stream).events
        invariant (rbuf == old(rbuf) || fresh(rbuf)) && (item == old(item) || fresh(item))
        invariant willing ==> !hungUp && (events == all || Potential() + i <= before)
      {
        ghost var sofar := events;
        if !hungUp && Settled() { SettledKnown(whole); }
        astray := TakeTurn(turns[i]);
        if astray {
          SanePrefix(decide, stream, net);
          return;
        }
        Known();
        EventsPrefix(decide, stream, net);
      }
    }

    lemma Known()
      requires Valid()
      ensures events <= Run(decide, Line, 0, stream).events
    {
      hide Run;
      if !hungUp { EventsSoFar(decide, stream, events, CurrentMode(), commands, Unconsumed()); }
    }

    lemma SettledKnown(whole: seq<byte>)
      requires Valid() && !hungUp && Settled() && whole == stream + net
      ensures events == Run(decide, Line, 0, whole).events
    {
      hide Run;
      var mode, rest := CurrentMode(), Unconsumed();
      RunShort(decide, mode, commands, rest);
      RunMore(decide, Line, 0, stream, net);
      if net == [] {
        assert stream + net == stream;
      } else {
        RunShort(decide, Closed, commands, rest + net);
      }
    }
  }

  lemma ShortRest(d: Decide, stream: seq<byte>, events: seq<Event>, mode: Mode, k: nat, rest: seq<byte>)
    requires Explained(d, stream, events, mode, k, rest)
    ensures |rest| <= |stream|
  {}

  lemma SanePrefix(d: Decide, s: seq<byte>, t: seq<byte>)
    ensures Sane(d, s + t) ==> Sane(d, s)
  {
    hide Run;
    var r := Run(d, Line, 0, s);
    RunMore(d, Line, 0, s, t);
    RunShort(d, r.mode, r.k, r.rest + t);
  }

  lemma EventsPrefix(d: Decide, s: seq<byte>, t: seq<byte>)
    ensures Run(d, Line, 0, s).events <= Run(d, Line, 0, s + t).events
  {
    hide Run;
    RunMore(d, Line, 0, s, t);
  }

  lemma SocketData(d: Decide, stream: seq<byte>, events: seq<Event>, need: nat, got: seq<byte>, k: nat,
                   chunk: seq<byte>)
    requires Explained(d, stream, events, Data(need, got), k, []) && |chunk| <= need
    ensures Explained(d, stream + chunk, events, Data(need - |chunk|, got + chunk), k, [])
  {
    hide Run, Explained;
    Received(d, stream, events, Data(need, got), k, [], chunk);
    assert [] + chunk == chunk && chunk[|chunk|..] == [] && chunk[..|chunk|] == chunk;
    ExplainPart(d, stream + chunk, events, need, got, k, chunk, |chunk|);
  }

  lemma SocketDropped(d: Decide, stream: seq<byte>, events: seq<Event>, n: nat, k: nat, chunk: seq<byte>)
    requires Explained(d, stream, events, Swallow(n), k, []) && |chunk| <= n
    ensures Explained(d, stream + chunk, events, Swallow(n - |chunk|), k, [])
  {
    hide Run, Explained;
    Received(d, stream, events, Swallow(n), k, [], chunk);
    assert [] + chunk == chunk && chunk[|chunk|..] == [];
    ExplainDropped(d, stream + chunk, events, n, k, chunk, |chunk|);
  }

  predicate Pasted(was: seq<byte>, now: seq<byte>, at: nat, data: seq<byte>) {
    at + |data| <= |was| && now == was[..at] + data + was[at + |data|..]
  }

  lemma PastedFront(was: seq<byte>, now: seq<byte>, at: nat, data: seq<byte>)
    requires Pasted(was, now, at, data)
    ensures |now| == |was| && now[..at + |data|] == was[..at] + data
  {}

  lemma LineEnd(s: seq<byte>, e: nat)
    requires e == FindNl(s) < |s|
    ensures LineOf(s, e) == if e > 1 && s[e - 1] == CR then s[..e - 1] else s[..e]
  {}

  lemma ExplainStored(d: Decide, stream: seq<byte>, events: seq<Event>, k: nat, got: seq<byte>, rest: seq<byte>)
    requires Explained(d, stream, events, Data(0, got), k, rest)
    ensures Explained(d, stream, events + [Stored(got)], Line, k, rest)
  {
    hide Run;
    RunFull(d, Data(0, got), k, rest);
    assert got + rest[..0] == got && rest[0..] == rest;
    PrependTwice(events, [Stored(got)], Run(d, Line, k, rest));
  }

  lemma ExplainPart(d: Decide, stream: seq<byte>, events: seq<Event>, need: nat, got: seq<byte>, k: nat,
                    rest: seq<byte>, j: nat)
    requires Explained(d, stream, events, Data(need, got), k, rest) && j <= need && j <= |rest|
    ensures Explained(d, stream, events, Data(need - j, got + rest[..j]), k, rest[j..])
  {
    hide Run;
    RunData(d, need, got, k, rest, j);
  }

  lemma ExplainSwallowed(d: Decide, stream: seq<byte>, events: seq<Event>, k: nat, rest: seq<byte>)
    requires Explained(d, stream, events, Swallow(0), k, rest)
    ensures Explained(d, stream, events, Line, k, rest)
  {
    hide Run;
    RunFull(d, Swallow(0), k, rest);
    assert rest[0..] == rest;
  }

  lemma ExplainDropped(d: Decide, stream: seq<byte>, events: seq<Event>, n: nat, k: nat, rest: seq<byte>, j: nat)
    requires Explained(d, stream, events, Swallow(n), k, rest) && j <= n && j <= |rest|
    ensures Explained(d, stream, events, Swallow(n - j), k, rest[j..])
  {
    hide Run;
    RunSwallow(d, n, k, rest, j);
  }

  /** A connection with a negative number of bytes to swallow has met the end of what its stream means. */
  lemma ExplainAstray(d: Decide, stream: seq<byte>, events: seq<Event>, mode: Mode, k: nat, rest: seq<byte>)
    requires Explained(d, stream, events, mode, k, rest)
    ensures Astray(mode) ==> !Sane(d, stream)
  {
    hide Run;
    RunShort(d, mode, k, rest);
  }

  /** Whatever has been recognised is a beginning of what the whole stream will be recognised as. */
  lemma EventsSoFar(d: Decide, stream: seq<byte>, events: seq<Event>, mode: Mode, k: nat, rest: seq<byte>)
    requires Explained(d, stream, events, mode, k, rest)
    ensures events <= Run(d, Line, 0, stream).events
  {
    hide Run;
  }

  lemma NothingMore(d: Decide, stream: seq<byte>, events: seq<Event>, k: nat, rest: seq<byte>)
    requires Explained(d, stream, events, Line, k, rest)
    ensures FindNl(rest) == |rest| ==> events == Run(d, Line, 0, stream).events
  {
    hide Run;
    RunShort(d, Line, k, rest);
  }

  lemma EndsLater(s: seq<byte>, u: seq<byte>, j: nat)
    requires EndsWith(s, u) && j <= |u|
    ensures EndsWith(s, u[j..])
  {
    assert s[|s| - |u|..][j..] == s[|s| - |u| + j..];
  }

  lemma ExplainLine(d: Decide, stream: seq<byte>, events: seq<Event>, k: nat, rest: seq<byte>)
    requires Explained(d, stream, events, Line, k, rest) && FindNl(rest) < |rest|
    ensures var line := LineOf(rest, FindNl(rest));
      Explained(d, stream, events + [Command(line)], After(d(k, line)), k + 1, rest[FindNl(rest) + 1..])
  {
    hide Run, LineOf, After, FindNl, EndsWith;
    EndsLater(stream, rest, FindNl(rest) + 1);
    var line := LineOf(rest, FindNl(rest));
    RunLine(d, k, rest);
    PrependTwice(events, [Command(line)], Run(d, After(d(k, line)), k + 1, rest[FindNl(rest) + 1..]));
  }

  /** `rest` is the end of the stream, and what has been recognised, continued with `rest`, is what one pass
      recognises. */
  ghost predicate Explained(d: Decide, stream: seq<byte>, events: seq<Event>, mode: Mode, k: nat, rest: seq<byte>) {
    Run(d, Line, 0, stream) == Prepend(events, Run(d, mode, k, rest)) && EndsWith(stream, rest)
  }

  predicate EndsWith(s: seq<byte>, u: seq<byte>) {
    |u| <= |s| && s[|s| - |u|..] == u
  }

  /** More input arrives behind what is unconsumed. */
  lemma Received(d: Decide, stream: seq<byte>, events: seq<Event>, mode: Mode, k: nat,
                 rest: seq<byte>, chunk: seq<byte>)
    requires Explained(d, stream, events, mode, k, rest)
    ensures Explained(d, stream + chunk, events, mode, k, rest + chunk)
  {
    hide Run;
    var r := Run(d, mode, k, rest);
    RunMore(d, Line, 0, stream, chunk);
    RunMore(d, mode, k, rest, chunk);
    PrependTwice(events, r.events, Run(d, r.mode, r.k, r.rest + chunk));
  }
}
