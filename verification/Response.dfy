/** A TCP reply: buffers are gathered into message headers over one growing iovec array, and sent in whatever
    portions the socket accepts. */
module Response {
  import opened Basics

  const UDP_MAX_PAYLOAD_SIZE: nat := 1400
  const IOV_LIST_INITIAL: nat := 400
  const MSG_LIST_INITIAL: nat := 10

  /** struct iovec: `len` bytes of memory from `base`. */
  datatype Iovec = Iovec(base: nat, len: nat)

  /** struct msghdr: msg_iov points at element `start` of the array `list`. */
  datatype MsgHdr = MsgHdr(list: array<Iovec>, start: nat, len: nat)

  datatype TransmitResult = Complete | Incomplete | SoftError | HardError

  function Segment(memory: seq<byte>, v: Iovec): seq<byte> {
    if v.base + v.len <= |memory| then memory[v.base..v.base + v.len] else []
  }

  /** What a run of iovecs holds. */
  function Gather(memory: seq<byte>, vs: seq<Iovec>): seq<byte>
    decreases |vs|
  {
    if vs == [] then [] else Segment(memory, vs[0]) + Gather(memory, vs[1..])
  }

  function Slice(vs: seq<Iovec>, start: nat, len: nat): seq<Iovec> {
    if start + len <= |vs| then vs[start..start + len] else []
  }

  /** The messages from number `k` on, read in order. */
  function Rest(memory: seq<byte>, vs: seq<Iovec>, msgs: seq<MsgHdr>, k: nat): seq<byte>
    decreases |msgs| - k
  {
    if k >= |msgs| then [] else Gather(memory, Slice(vs, msgs[k].start, msgs[k].len)) + Rest(memory, vs, msgs, k + 1)
  }

  lemma {:induction false} GatherAppend(memory: seq<byte>, us: seq<Iovec>, vs: seq<Iovec>)
    ensures Gather(memory, us + vs) == Gather(memory, us) + Gather(memory, vs)
    decreases |us|
  {
    if us == [] {
      assert us + vs == vs;
    } else {
      assert (us + vs)[1..] == us[1..] + vs;
      GatherAppend(memory, us[1..], vs);
    }
  }

  lemma GatherOne(memory: seq<byte>, v: Iovec)
    ensures Gather(memory, [v]) == Segment(memory, v)
  {
    assert Gather(memory, [v][1..]) == [];
  }

  /** Messages whose stretches of the array are the same read the same. */
  lemma {:induction false} RestFrame(memory: seq<byte>, vs: seq<Iovec>, vs': seq<Iovec>, msgs: seq<MsgHdr>,
      msgs': seq<MsgHdr>, k: nat)
    requires |msgs'| == |msgs|
    requires forall i :: k <= i < |msgs| ==>
      Slice(vs', msgs'[i].start, msgs'[i].len) == Slice(vs, msgs[i].start, msgs[i].len)
    ensures Rest(memory, vs', msgs', k) == Rest(memory, vs, msgs, k)
    decreases |msgs| - k
  {
    if k < |msgs| { RestFrame(memory, vs, vs', msgs, msgs', k + 1); }
  }

  /** A new message without iovecs adds nothing. */
  lemma {:induction false} RestEmptyMessage(memory: seq<byte>, vs: seq<Iovec>, msgs: seq<MsgHdr>, m: MsgHdr, k: nat)
    requires m.len == 0 && k <= |msgs|
    ensures Rest(memory, vs, msgs + [m], k) == Rest(memory, vs, msgs, k)
    decreases |msgs| - k
  {
    if k < |msgs| {
      RestEmptyMessage(memory, vs, msgs, m, k + 1);
    } else {
      assert Slice(vs, m.start, 0) == [];
    }
  }

  lemma SliceSame(vs: seq<Iovec>, vs': seq<Iovec>, used: nat, start: nat, len: nat)
    requires used <= |vs| && used <= |vs'| && vs'[..used] == vs[..used] && start + len <= used
    ensures Slice(vs', start, len) == Slice(vs, start, len)
  {
    assert vs[start..start + len] == vs[..used][start..start + len];
    assert vs'[start..start + len] == vs'[..used][start..start + len];
  }

  lemma GatherPush(memory: seq<byte>, vs: seq<Iovec>, vs': seq<Iovec>, start: nat, len: nat)
    requires start + len < |vs'| && start + len <= |vs| && vs'[..start + len] == vs[..start + len]
    ensures Gather(memory, Slice(vs', start, len + 1)) ==
      Gather(memory, Slice(vs, start, len)) + Segment(memory, vs'[start + len])
  {
    var v := vs'[start + len];
    SliceSame(vs, vs', start + len, start, len);
    assert Slice(vs', start, len + 1) == Slice(vs', start, len) + [v];
    GatherAppend(memory, Slice(vs, start, len), [v]);
    GatherOne(memory, v);
  }

  function Pushed(msgs: seq<MsgHdr>): seq<MsgHdr>
    requires |msgs| > 0
  {
    msgs[|msgs| - 1 := msgs[|msgs| - 1].(len := msgs[|msgs| - 1].len + 1)]
  }

  /** One more iovec at the end of the last message adds its bytes at the end. */
  lemma {:induction false} RestPush(memory: seq<byte>, vs: seq<Iovec>, vs': seq<Iovec>, msgs: seq<MsgHdr>, used: nat,
                                    k: nat)
    requires k < |msgs| && used <= |vs| && used < |vs'| && vs'[..used] == vs[..used]
    requires forall i :: 0 <= i < |msgs| ==> msgs[i].start + msgs[i].len <= used
    requires msgs[|msgs| - 1].start + msgs[|msgs| - 1].len == used
    ensures Rest(memory, vs', Pushed(msgs), k) == Rest(memory, vs, msgs, k) + Segment(memory, vs'[used])
    decreases |msgs| - k
  {
    hide Slice, Gather, Rest;
    RestAt(memory, vs, msgs, k);
    RestAt(memory, vs', Pushed(msgs), k);
    if k < |msgs| - 1 {
      SliceSame(vs, vs', used, msgs[k].start, msgs[k].len);
      RestPush(memory, vs, vs', msgs, used, k + 1);
    } else {
      GatherPush(memory, vs, vs', msgs[k].start, msgs[k].len);
      RestEnd(memory, vs, msgs, k + 1);
      RestEnd(memory, vs', Pushed(msgs), k + 1);
    }
  }

  /** The messages' stretches lie one behind the other within the first `used` elements of `list`. */
  ghost predicate Linked(list: array<Iovec>, msgs: seq<MsgHdr>, used: nat) {
    && (forall i :: 0 <= i < |msgs| ==> msgs[i].list == list && msgs[i].start + msgs[i].len <= used)
    && (forall i, j :: 0 <= i < j < |msgs| ==> msgs[i].start + msgs[i].len <= msgs[j].start)
  }

  /** While the reply is built nothing has been consumed: the stretches cover the used elements exactly. */
  ghost predicate Tiled(msgs: seq<MsgHdr>, used: nat) {
    && |msgs| > 0 && msgs[0].start == 0 && msgs[|msgs| - 1].start + msgs[|msgs| - 1].len == used
    && (forall i :: 0 <= i < |msgs| - 1 ==> msgs[i + 1].start == msgs[i].start + msgs[i].len)
  }

  function Bytes(memory: seq<byte>, vs: seq<Iovec>, m: MsgHdr): seq<byte> {
    Gather(memory, Slice(vs, m.start, m.len))
  }

  /** While the reply is built: msgbytes counts the last message, and the first one keeps to its limit. */
  ghost predicate Counted(memory: seq<byte>, vs: seq<Iovec>, msgs: seq<MsgHdr>, msgbytes: nat) {
    && |msgs| > 0
    && msgbytes == |Bytes(memory, vs, msgs[|msgs| - 1])|
    && |Bytes(memory, vs, msgs[0])| <= UDP_MAX_PAYLOAD_SIZE
  }

  /** No message from number `k` on has more iovecs than sendmsg takes. */
  ghost predicate Within(msgs: seq<MsgHdr>, iovMax: nat, k: nat) {
    forall i :: k <= i < |msgs| ==> msgs[i].len <= iovMax
  }

  ghost predicate InMemory(memory: seq<byte>, vs: seq<Iovec>, used: nat) {
    used <= |vs| && forall i :: 0 <= i < used ==> vs[i].base + vs[i].len <= |memory|
  }

  // ----- What the building steps keep

  lemma NewMessage(memory: seq<byte>, list: array<Iovec>, vs: seq<Iovec>, msgs: seq<MsgHdr>, used: nat, k: nat)
    requires Linked(list, msgs, used) && k <= |msgs|
    ensures var msgs' := msgs + [MsgHdr(list, used, 0)];
      && Linked(list, msgs', used) && Rest(memory, vs, msgs', k) == Rest(memory, vs, msgs, k)
      && (Tiled(msgs, used) ==> Tiled(msgs', used))
  {
    hide Rest, Slice, Gather;
    RestEmptyMessage(memory, vs, msgs, MsgHdr(list, used, 0), k);
  }

  lemma NewMessageCounted(memory: seq<byte>, list: array<Iovec>, vs: seq<Iovec>, msgs: seq<MsgHdr>, used: nat,
                          msgbytes: nat)
    requires |msgs| == 0 || Counted(memory, vs, msgs, msgbytes)
    ensures Counted(memory, vs, msgs + [MsgHdr(list, used, 0)], 0)
  {
    assert Slice(vs, used, 0) == [];
    if |msgs| > 0 { assert (msgs + [MsgHdr(list, used, 0)])[0] == msgs[0]; }
  }

  lemma NewMessageWithin(msgs: seq<MsgHdr>, m: MsgHdr, iovMax: nat)
    requires m.len == 0
    ensures Within(msgs + [m], iovMax, 0) <==> Within(msgs, iovMax, 0)
  {
    assert forall i :: 0 <= i < |msgs| ==> (msgs + [m])[i] == msgs[i];
  }

  lemma PushWithin(msgs: seq<MsgHdr>, iovMax: nat)
    requires |msgs| > 0
    ensures Within(Pushed(msgs), iovMax, 0) <==> Within(msgs, iovMax, 0) && msgs[|msgs| - 1].len < iovMax
  {
    var n := |msgs| - 1;
    assert Pushed(msgs)[n].len == msgs[n].len + 1;
    assert forall i :: 0 <= i < n ==> Pushed(msgs)[i] == msgs[i];
  }

  lemma PushKeeps(memory: seq<byte>, list: array<Iovec>, vs: seq<Iovec>, vs': seq<Iovec>, msgs: seq<MsgHdr>, used: nat)
    requires Linked(list, msgs, used) && Tiled(msgs, used) && used <= |vs| && used < |vs'| && vs'[..used] == vs[..used]
    ensures Linked(list, Pushed(msgs), used + 1) && Tiled(Pushed(msgs), used + 1)
    ensures Rest(memory, vs', Pushed(msgs), 0) == Rest(memory, vs, msgs, 0) + Segment(memory, vs'[used])
  {
    hide Rest;
    RestPush(memory, vs, vs', msgs, used, 0);
  }

  lemma PushCounted(memory: seq<byte>, list: array<Iovec>, vs: seq<Iovec>, vs': seq<Iovec>, msgs: seq<MsgHdr>,
                    used: nat, msgbytes: nat)
    requires Linked(list, msgs, used) && Tiled(msgs, used) && used <= |vs| && used < |vs'| && vs'[..used] == vs[..used]
    requires Counted(memory, vs, msgs, msgbytes)
    requires |msgs| == 1 ==> msgbytes + |Segment(memory, vs'[used])| <= UDP_MAX_PAYLOAD_SIZE
    ensures Counted(memory, vs', Pushed(msgs), msgbytes + |Segment(memory, vs'[used])|)
  {
    hide Gather, Slice;
    var m := msgs[|msgs| - 1];
    GatherPush(memory, vs, vs', m.start, m.len);
    if |msgs| > 1 { SliceSame(vs, vs', used, msgs[0].start, msgs[0].len); }
  }

  // ----- The numbers add_iov works with

  /** msgused, the size of msglist, the iovecs of the last message, msgbytes, iovused and the size of iov. */
  datatype Numbers = Numbers(messages: nat, listSize: nat, iovlen: nat, bytes: nat, iovecs: nat, arraySize: nat)

  /** Which reallocs of add_iov succeed, by pass: of the list of messages and of the array of iovecs. */
  datatype Heap = Heap(messages: nat -> bool, iovecs: nat -> bool)

  ghost predicate Plenty(heap: Heap) {
    forall p :: heap.messages(p) && heap.iovecs(p)
  }

  /** A message that is full, or the first one when it has its bytes, is followed by a new one, unless the list of
      messages cannot grow: add_iov does not look at what add_msghdr returns. */
  function Opened(n: Numbers, iovMax: nat, grows: bool): Numbers {
    if !(n.iovlen == iovMax || (n.messages == 1 && n.bytes >= UDP_MAX_PAYLOAD_SIZE)) then n
    else if n.messages < n.listSize then n.(messages := n.messages + 1, iovlen := 0, bytes := 0)
    else if grows then n.(messages := n.messages + 1, listSize := 2 * n.listSize, iovlen := 0, bytes := 0)
    else n
  }

  predicate NoSpace(n: Numbers, grows: bool) { n.iovecs >= n.arraySize && !grows }

  function Spaced(n: Numbers, grows: bool): Numbers {
    if n.iovecs >= n.arraySize && grows then n.(arraySize := 2 * n.arraySize) else n
  }

  /** How much of `len` bytes the next iovec takes. */
  function Fragment(limitToMtu: bool, bytes: nat, len: nat): nat {
    if limitToMtu && len + bytes > UDP_MAX_PAYLOAD_SIZE then
      if bytes > UDP_MAX_PAYLOAD_SIZE then 0 else UDP_MAX_PAYLOAD_SIZE - bytes
    else len
  }

  function OneMore(n: Numbers, len: nat): Numbers {
    n.(iovlen := n.iovlen + 1, bytes := n.bytes + len, iovecs := n.iovecs + 1)
  }

  /** What add_iov does with `len` bytes: whether it returns 0, the numbers afterwards, how many bytes it adds, and
      whether it puts an iovec into a message that is full. */
  datatype Added = Added(ok: bool, numbers: Numbers, bytes: nat, overfull: bool)

  function Adding(n: Numbers, iovMax: nat, len: nat, heap: Heap, pass: nat): (r: Added)
    requires n.listSize >= MSG_LIST_INITIAL
    ensures r.bytes <= len && (r.ok ==> r.bytes == len) && r.numbers.listSize >= MSG_LIST_INITIAL
    decreases len
  {
    var begun := Opened(n, iovMax, heap.messages(pass));
    if NoSpace(begun, heap.iovecs(pass)) then Added(false, begun, 0, false)
    else
      var spaced := Spaced(begun, heap.iovecs(pass));
      var size := Fragment(n.messages == 1, spaced.bytes, len);
      var last, full := OneMore(spaced, size), spaced.iovlen >= iovMax;
      if size == len then Added(true, last, len, full)
      else
        var r := Adding(last, iovMax, len - size, heap, pass + 1);
        r.(bytes := size + r.bytes, overfull := full || r.overfull)
  }

  /** One pass, and what is left for the next one. */
  lemma AddingPass(n: Numbers, iovMax: nat, len: nat, heap: Heap, pass: nat)
    requires n.listSize >= MSG_LIST_INITIAL
    ensures
      var begun := Opened(n, iovMax, heap.messages(pass));
      var spaced := Spaced(begun, heap.iovecs(pass));
      var size := Fragment(n.messages == 1, spaced.bytes, len);
      var r, last, full := Adding(n, iovMax, len, heap, pass), OneMore(spaced, size), spaced.iovlen >= iovMax;
      && (NoSpace(begun, heap.iovecs(pass)) ==> r == Added(false, begun, 0, false))
      && (!NoSpace(begun, heap.iovecs(pass)) ==>
        if size == len then r == Added(true, last, len, full)
        else
          && size < len && last.listSize >= MSG_LIST_INITIAL
          && var rest := Adding(last, iovMax, len - size, heap, pass + 1);
            r == rest.(bytes := size + rest.bytes, overfull := full || rest.overfull))
  {}

  /** The next message is needed, and there is none: the list is full and cannot grow. */
  predicate Denied(n: Numbers, iovMax: nat, heap: Heap) {
    n.iovlen == iovMax && n.messages == n.listSize && !heap.messages(0)
  }

  /** A message gets an iovec too many exactly if it has all it can take, the list of messages is full and cannot
      grow, and add_iov still finds a place for the iovec: it then returns 0. The first message is never denied its
      successor, as the list has place for ten from the start. */
  lemma AddingExact(n: Numbers, iovMax: nat, len: nat, heap: Heap)
    requires n.listSize >= MSG_LIST_INITIAL && 0 < n.messages <= n.listSize && n.iovlen <= iovMax && 0 < iovMax
    ensures var r := Adding(n, iovMax, len, heap, 0);
      && r.overfull == (r.ok && Denied(n, iovMax, heap))
      && (r.overfull ==> r.numbers.iovlen == iovMax + 1)
      && (Denied(n, iovMax, heap) ==> r.ok == !NoSpace(n, heap.iovecs(0)))
  {
    if n.messages == 1 { AddingWithin(n, iovMax, len, heap, 0); }
  }

  /** As long as the first message is the last one no message gets too many iovecs. */
  lemma {:induction false} AddingWithin(n: Numbers, iovMax: nat, len: nat, heap: Heap, pass: nat)
    requires n.listSize >= MSG_LIST_INITIAL && 0 < n.messages <= 2 && n.iovlen <= iovMax && 0 < iovMax
    ensures !Adding(n, iovMax, len, heap, pass).overfull
    decreases len
  {
    var spaced := Spaced(Opened(n, iovMax, heap.messages(pass)), heap.iovecs(pass));
    var size := Fragment(n.messages == 1, spaced.bytes, len);
    if size < len { AddingWithin(OneMore(spaced, size), iovMax, len - size, heap, pass + 1); }
  }

  /** While every realloc succeeds add_iov returns 0 and keeps the limit. */
  lemma {:induction false} AddingPlenty(n: Numbers, iovMax: nat, len: nat, heap: Heap, pass: nat)
    requires n.listSize >= MSG_LIST_INITIAL && n.messages <= n.listSize && n.iovlen <= iovMax && 0 < iovMax
    requires Plenty(heap)
    ensures var r := Adding(n, iovMax, len, heap, pass);
      r.ok && !r.overfull && r.numbers.iovlen <= iovMax && r.numbers.messages <= r.numbers.listSize
    decreases len
  {
    var spaced := Spaced(Opened(n, iovMax, heap.messages(pass)), heap.iovecs(pass));
    var size := Fragment(n.messages == 1, spaced.bytes, len);
    if size < len { AddingPlenty(OneMore(spaced, size), iovMax, len - size, heap, pass + 1); }
  }

  /** A whole reply made of `bufs` from number `i` on, up to the first failure. */
  function AddingEach(n: Numbers, iovMax: nat, bufs: seq<Iovec>, heaps: nat -> Heap, i: nat): (r: Added)
    requires n.listSize >= MSG_LIST_INITIAL && i <= |bufs|
    decreases |bufs| - i
  {
    if i == |bufs| then Added(true, n, 0, false)
    else
      var first := Adding(n, iovMax, bufs[i].len, heaps(i), 0);
      if !first.ok then first
      else
        var r := AddingEach(first.numbers, iovMax, bufs, heaps, i + 1);
        r.(bytes := first.bytes + r.bytes, overfull := first.overfull || r.overfull)
  }

  lemma {:induction false} AddingEachPlenty(n: Numbers, iovMax: nat, bufs: seq<Iovec>, heaps: nat -> Heap, i: nat)
    requires n.listSize >= MSG_LIST_INITIAL && n.messages <= n.listSize && n.iovlen <= iovMax && 0 < iovMax
    requires i <= |bufs| && forall k :: i <= k < |bufs| ==> Plenty(heaps(k))
    ensures var r := AddingEach(n, iovMax, bufs, heaps, i); r.ok && !r.overfull
    decreases |bufs| - i
  {
    hide Plenty;
    if i < |bufs| {
      AddingPlenty(n, iovMax, bufs[i].len, heaps(i), 0);
      AddingEachPlenty(Adding(n, iovMax, bufs[i].len, heaps(i), 0).numbers, iovMax, bufs, heaps, i + 1);
    }
  }

  // ----- Messages that have something to send

  ghost predicate Busy(memory: seq<byte>, vs: seq<Iovec>, m: MsgHdr) {
    m.len > 0 && |Bytes(memory, vs, m)| > 0
  }

  /** While the reply is built: only the last message may still be empty. */
  ghost predicate Fed(memory: seq<byte>, vs: seq<Iovec>, msgs: seq<MsgHdr>) {
    && (forall i :: 0 <= i < |msgs| - 1 ==> Busy(memory, vs, msgs[i]))
    && (|msgs| > 0 && msgs[|msgs| - 1].len > 0 ==> Busy(memory, vs, msgs[|msgs| - 1]))
  }

  /** While the reply is sent: only the current message may be used up. */
  ghost predicate Lively(memory: seq<byte>, vs: seq<Iovec>, msgs: seq<MsgHdr>, k: nat) {
    && (forall i :: k < i < |msgs| ==> Busy(memory, vs, msgs[i]))
    && (k < |msgs| && msgs[k].len > 0 ==> Busy(memory, vs, msgs[k]))
  }

  lemma NoBytes(memory: seq<byte>, vs: seq<Iovec>, m: MsgHdr)
    requires |Bytes(memory, vs, m)| > 0
    ensures m.len > 0
  {}

  lemma FedMessage(memory: seq<byte>, list: array<Iovec>, vs: seq<Iovec>, msgs: seq<MsgHdr>, used: nat)
    requires Fed(memory, vs, msgs) && (|msgs| > 0 ==> msgs[|msgs| - 1].len > 0)
    ensures Fed(memory, vs, msgs + [MsgHdr(list, used, 0)])
  {}

  lemma FedRepointed(memory: seq<byte>, list: array<Iovec>, list': array<Iovec>, vs: seq<Iovec>, vs': seq<Iovec>,
      msgs: seq<MsgHdr>, used: nat)
    requires Linked(list, msgs, used) && used <= |vs| && used <= |vs'| && vs'[..used] == vs[..used]
    requires Fed(memory, vs, msgs)
    ensures Fed(memory, vs', Repointed(msgs, list', |msgs|))
  {
    hide Slice, Gather;
    forall i | 0 <= i < |msgs|
      ensures Bytes(memory, vs', Repointed(msgs, list', |msgs|)[i]) == Bytes(memory, vs, msgs[i])
    {
      SliceSame(vs, vs', used, msgs[i].start, msgs[i].len);
    }
  }

  lemma LinkedSlice(list: array<Iovec>, msgs: seq<MsgHdr>, used: nat, i: nat)
    requires Linked(list, msgs, used) && i < |msgs|
    ensures msgs[i].start + msgs[i].len <= used
  {}

  lemma FedPushed(memory: seq<byte>, list: array<Iovec>, vs: seq<Iovec>, vs': seq<Iovec>, msgs: seq<MsgHdr>, used: nat)
    requires Linked(list, msgs, used) && Tiled(msgs, used) && used <= |vs| && used < |vs'| && vs'[..used] == vs[..used]
    requires Fed(memory, vs, msgs) && (|Segment(memory, vs'[used])| > 0 || Busy(memory, vs, msgs[|msgs| - 1]))
    ensures Fed(memory, vs', Pushed(msgs)) && Busy(memory, vs', Pushed(msgs)[|msgs| - 1])
  {
    hide Slice, Gather, Linked, Segment;
    var n := |msgs| - 1;
    forall i | 0 <= i < n ensures Busy(memory, vs', Pushed(msgs)[i]) {
      LinkedSlice(list, msgs, used, i);
      SliceSame(vs, vs', used, msgs[i].start, msgs[i].len);
      assert Busy(memory, vs, msgs[i]);
    }
    GatherPush(memory, vs, vs', msgs[n].start, msgs[n].len);
  }

  lemma SegmentIn(memory: seq<byte>, v: Iovec)
    requires v.base + v.len <= |memory|
    ensures Segment(memory, v) == memory[v.base..v.base + v.len] && |Segment(memory, v)| == v.len
  {}

  /** All that one more iovec in the last message keeps. */
  lemma PushAll(memory: seq<byte>, list: array<Iovec>, vs: seq<Iovec>, vs': seq<Iovec>, msgs: seq<MsgHdr>, used: nat,
                msgbytes: nat, iovMax: nat)
    requires Linked(list, msgs, used) && Tiled(msgs, used) && Counted(memory, vs, msgs, msgbytes)
    requires InMemory(memory, vs, used) && used < |vs'| && used <= |vs| && vs'[..used] == vs[..used]
    requires vs'[used].base + vs'[used].len <= |memory|
    requires |msgs| == 1 ==> msgbytes + vs'[used].len <= UDP_MAX_PAYLOAD_SIZE
    ensures |msgs| > 0 && Linked(list, Pushed(msgs), used + 1) && Tiled(Pushed(msgs), used + 1)
    ensures Counted(memory, vs', Pushed(msgs), msgbytes + vs'[used].len) && InMemory(memory, vs', used + 1)
    ensures Rest(memory, vs', Pushed(msgs), 0) ==
      Rest(memory, vs, msgs, 0) + memory[vs'[used].base..vs'[used].base + vs'[used].len]
    ensures Within(Pushed(msgs), iovMax, 0) <==> Within(msgs, iovMax, 0) && msgs[|msgs| - 1].len < iovMax
    ensures Fed(memory, vs, msgs) && (vs'[used].len > 0 || msgbytes > 0) ==> Fed(memory, vs', Pushed(msgs))
  {
    hide Linked, Tiled, Within, InMemory, Rest, Fed, Busy, Segment, Slice, Gather;
    LastEnd(msgs, used);
    LastCounted(memory, vs, msgs, msgbytes);
    SegmentIn(memory, vs'[used]);
    PushKeeps(memory, list, vs, vs', msgs, used);
    PushCounted(memory, list, vs, vs', msgs, used, msgbytes);
    PushWithin(msgs, iovMax);
    InMemoryPushed(memory, vs, vs', used);
    if Fed(memory, vs, msgs) && (|Segment(memory, vs'[used])| > 0 || msgbytes > 0) {
      FedPushed(memory, list, vs, vs', msgs, used);
    }
  }

  lemma FirstBusy(memory: seq<byte>, vs: seq<Iovec>, m: MsgHdr, used: nat)
    requires m.len > 0 && m.start + m.len <= used && InMemory(memory, vs, used) && vs[m.start].len > 0
    ensures Busy(memory, vs, m)
  {
    DropFirst(memory, vs, m, used);
  }

  lemma LivelyConsumed(memory: seq<byte>, list: array<Iovec>, vs: seq<Iovec>, vs': seq<Iovec>, msgs: seq<MsgHdr>,
      used: nat, k: nat, m: MsgHdr)
    requires Linked(list, msgs, used) && k < |msgs| && m.start + m.len == msgs[k].start + msgs[k].len
    requires vs' == vs || (m.len > 0 && m.start < |vs'| == |vs| && vs' == vs[m.start := vs'[m.start]])
    requires Lively(memory, vs, msgs, k) && (m.len > 0 ==> Busy(memory, vs', m))
    ensures Lively(memory, vs', msgs[k := m], k)
  {
    hide Slice, Gather, Linked;
    var msgs' := msgs[k := m];
    forall i | k < i < |msgs'| ensures Busy(memory, vs', msgs'[i]) {
      LaterSlice(list, vs, vs', msgs, used, k, i, m);
    }
  }

  /** realloc and the loop that points every message at the new array. */
  function Repointed(msgs: seq<MsgHdr>, list: array<Iovec>, k: nat): seq<MsgHdr>
    requires k <= |msgs|
  {
    seq(|msgs|, i requires 0 <= i < |msgs| => if i < k then msgs[i].(list := list) else msgs[i])
  }

  lemma RepointLinked(list: array<Iovec>, list': array<Iovec>, msgs: seq<MsgHdr>, used: nat)
    requires Linked(list, msgs, used)
    ensures Linked(list', Repointed(msgs, list', |msgs|), used)
    ensures Tiled(msgs, used) ==> Tiled(Repointed(msgs, list', |msgs|), used)
  {}

  /** Moving the array of iovecs changes nothing that is to be sent. */
  lemma RepointKeeps(memory: seq<byte>, list: array<Iovec>, list': array<Iovec>, vs: seq<Iovec>, vs': seq<Iovec>,
                     msgs: seq<MsgHdr>, used: nat, msgbytes: nat, k: nat)
    requires Linked(list, msgs, used) && used <= |vs| && used <= |vs'| && vs'[..used] == vs[..used]
    ensures var msgs' := Repointed(msgs, list', |msgs|);
      && Linked(list', msgs', used) && Rest(memory, vs', msgs', k) == Rest(memory, vs, msgs, k)
      && (Tiled(msgs, used) ==> Tiled(msgs', used))
      && (Counted(memory, vs, msgs, msgbytes) ==> Counted(memory, vs', msgs', msgbytes))
  {
    hide Slice, Gather, Rest, Tiled, Linked;
    var msgs' := Repointed(msgs, list', |msgs|);
    RepointLinked(list, list', msgs, used);
    forall i | 0 <= i < |msgs|
      ensures Slice(vs', msgs'[i].start, msgs'[i].len) == Slice(vs, msgs[i].start, msgs[i].len)
    {
      LinkedSlice(list, msgs, used, i);
      SliceSame(vs, vs', used, msgs[i].start, msgs[i].len);
    }
    RestFrame(memory, vs, vs', msgs, msgs', k);
  }

  lemma RepointWithin(msgs: seq<MsgHdr>, list: array<Iovec>, iovMax: nat)
    ensures Within(Repointed(msgs, list, |msgs|), iovMax, 0) <==> Within(msgs, iovMax, 0)
  {
    assert forall i :: 0 <= i < |msgs| ==> Repointed(msgs, list, |msgs|)[i].len == msgs[i].len;
  }

  class Connection {
    const memory: seq<byte>
    const iovMax: nat
    var iov: array<Iovec>
    var iovused: nat
    var msglist: array<MsgHdr>
    var msgused: nat
    var msgcurr: nat
    var msgbytes: nat
    /** Everything sendmsg has accepted. */
    ghost var wire: seq<byte>

    ghost function Msgs(): seq<MsgHdr>
      reads this, msglist
      requires msgused <= msglist.Length
    {
      msglist[..msgused]
    }

    ghost predicate Valid()
      reads this, iov, msglist
    {
      && iovMax > 0 && iov.Length > 0 && msglist.Length >= MSG_LIST_INITIAL
      && iovused <= iov.Length && msgused <= msglist.Length && msgcurr <= msgused
      && Linked(iov, Msgs(), iovused)
      && InMemory(memory, iov[..], iovused)
    }

    /** The state between add_msghdr and the first transmit. */
    ghost predicate Building()
      reads this, iov, msglist
    {
      Valid() && msgcurr == 0 && Tiled(Msgs(), iovused) && Counted(memory, iov[..], Msgs(), msgbytes)
    }

    predicate LastFilled()
      reads this, msglist
    {
      0 < msgused <= msglist.Length && msglist[msgused - 1].len > 0
    }

    ghost function NumbersNow(): Numbers
      reads this, msglist, iov
      requires 0 < msgused <= msglist.Length
    {
      Numbers(msgused, msglist.Length, msglist[msgused - 1].len, msgbytes, iovused, iov.Length)
    }

    /** What is still to be sent. */
    ghost function Pending(): seq<byte>
      reads this, iov, msglist
      requires msgused <= msglist.Length
    {
      Rest(memory, iov[..], Msgs(), msgcurr)
    }

    /** A new connection. */
    constructor (memory: seq<byte>, iovMax: nat)
      requires iovMax > 0
      ensures Valid() && msgused == 0 == msgcurr && iovused == 0 && Pending() == [] && wire == []
      ensures fresh(iov) && fresh(msglist) && this.memory == memory && this.iovMax == iovMax
    {
      this.memory := memory;
      this.iovMax := iovMax;
      var first := new Iovec[IOV_LIST_INITIAL](_ => Iovec(0, 0));
      iov := first;
      msglist := new MsgHdr[MSG_LIST_INITIAL](_ => MsgHdr(first, 0, 0));
      iovused, msgused, msgcurr, msgbytes := 0, 0, 0, 0;
      wire := [];
    }

    /** realloc of msglist. */
    method GrowMessages()
      requires Valid()
      modifies this`msglist
      ensures fresh(msglist) && msglist.Length == 2 * old(msglist).Length && Msgs() == old(Msgs())
    {
      var bigger := new MsgHdr[2 * msglist.Length](i requires 0 <= i reads this, msglist =>
        if i < msglist.Length then msglist[i] else MsgHdr(iov, 0, 0));
      assert bigger[..msgused] == msglist[..msgused];
      msglist := bigger;
    }

    /** add_msghdr; it fails, and changes nothing, exactly if it needs a longer list and realloc does not give one. */
    method AddMsghdr(grows: bool) returns (ok: bool)
      requires Valid()
      modifies this`msglist, this`msgused, this`msgbytes, msglist
      ensures Valid() && (msglist == old(msglist) || fresh(msglist)) && Pending() == old(Pending())
      ensures ok <==> grows || old(msgused) < old(msglist).Length
      ensures ok ==> msgused == old(msgused) + 1 && msgbytes == 0 && Msgs() == old(Msgs()) + [MsgHdr(iov, iovused, 0)]
      ensures !ok ==> msgused == old(msgused) && msgbytes == old(msgbytes) && Msgs() == old(Msgs())
      ensures msglist.Length == old(if msgused == msglist.Length && grows then 2 * msglist.Length else msglist.Length)
      ensures Within(Msgs(), iovMax, 0) <==> old(Within(Msgs(), iovMax, 0))
      ensures old(Building()) || (ok && old(msgused) == 0 == iovused) ==> Building()
      ensures old(Fed(memory, iov[..], Msgs()) && (msgused > 0 ==> msglist[msgused - 1].len > 0)) ==>
        Fed(memory, iov[..], Msgs())
    {
      hide Linked, Tiled, Counted, Within, InMemory, Rest, Fed;
      if msglist.Length == msgused && !grows {
        return false;
      }
      ok := true;
      if Fed(memory, iov[..], Msgs()) && (msgused > 0 ==> msglist[msgused - 1].len > 0) {
        FedMessage(memory, iov, iov[..], Msgs(), iovused);
      }
      ghost var was, vs, bytes := Msgs(), iov[..], msgbytes;
      if msglist.Length == msgused {
        GrowMessages();
      }
      msglist[msgused] := MsgHdr(iov, iovused, 0);
      msgused := msgused + 1;
      msgbytes := 0;
      assert Msgs() == was + [MsgHdr(iov, iovused, 0)];
      NewMessage(memory, iov, vs, was, iovused, msgcurr);
      NewMessageWithin(was, MsgHdr(iov, iovused, 0), iovMax);
      if old(Building()) || |was| == 0 { NewMessageCounted(memory, iov, vs, was, iovused, bytes); }
      if |was| == 0 && iovused == 0 {
        assert Msgs() == [MsgHdr(iov, 0, 0)];
        FirstMessage(iov);
      }
    }

    /** ensure_iov_space: however often the array doubles, every message still points at its own iovecs. It fails, and
        changes nothing, exactly if the array is full and realloc does not give a longer one. */
    method EnsureIovSpace(grows: bool) returns (ok: bool)
      requires Building() && msgused > 0
      modifies this`iov, msglist
      ensures Building() && (iov == old(iov) || fresh(iov))
      ensures ok <==> grows || old(iovused < iov.Length)
      ensures if ok then iovused < iov.Length else iov == old(iov)
      ensures NumbersNow() == Spaced(old(NumbersNow()), grows)
      ensures Within(Msgs(), iovMax, 0) <==> old(Within(Msgs(), iovMax, 0))
      ensures iov[..iovused] == old(iov[..iovused]) && Msgs() == Repointed(old(Msgs()), iov, msgused)
      ensures Pending() == old(Pending())
      ensures old(Fed(memory, iov[..], Msgs())) ==> Fed(memory, iov[..], Msgs())
    {
      hide Linked, Tiled, Counted, Within, InMemory, Rest, Fed;
      ghost var was, vs := Msgs(), iov[..];
      RepointSelf(iov, was, iovused);
      if iovused >= iov.Length && !grows {
        return false;
      }
      ok := true;
      if iovused >= iov.Length {
        var list := iov;
        var bigger := new Iovec[2 * iov.Length](i requires 0 <= i reads list =>
          if i < list.Length then list[i] else Iovec(0, 0));
        assert bigger[..iovused] == vs[..iovused];
        ghost var vs' := bigger[..];
        RepointKeeps(memory, list, bigger, vs, vs', was, iovused, msgbytes, msgcurr);
        RepointWithin(was, bigger, iovMax);
        InMemoryGrown(memory, vs, vs', iovused);
        if Fed(memory, vs, was) { FedRepointed(memory, list, bigger, vs, vs', was, iovused); }
        iov := bigger;
        Repoint();
        assert iov[..] == vs';
      }
    }

    /** The loop that points all messages at the new array. */
    method Repoint()
      requires msgused <= msglist.Length && Tiled(Msgs(), iovused)
      modifies msglist
      ensures Msgs() == Repointed(old(Msgs()), iov, msgused)
    {
      ghost var was := Msgs();
      var iovnum := 0;
      for i := 0 to msgused
        invariant Msgs() == Repointed(was, iov, i)
        invariant iovnum == PrefixLen(was, i)
      {
        TiledStart(was, iovused, i);
        msglist[i] := MsgHdr(iov, iovnum, msglist[i].len);
        iovnum := iovnum + msglist[i].len;
      }
    }

    /** The end of one pass of add_iov: the fragment becomes the last iovec of the last message. */
    method PushIov(base: nat, len: nat)
      requires Building() && 0 < msgused && iovused < iov.Length && base + len <= |memory|
      requires msgused == 1 ==> msgbytes + len <= UDP_MAX_PAYLOAD_SIZE
      modifies this`msgbytes, this`iovused, iov, msglist
      ensures Building() && Pending() == old(Pending()) + memory[base..base + len]
      ensures 0 < msgused && NumbersNow() == OneMore(old(NumbersNow()), len) && LastFilled()
      ensures Within(Msgs(), iovMax, 0) <==> old(Within(Msgs(), iovMax, 0) && msglist[msgused - 1].len < iovMax)
      ensures old(Fed(memory, iov[..], Msgs())) && (len > 0 || old(msgbytes) > 0) ==> Fed(memory, iov[..], Msgs())
    {
      hide Linked, Tiled, Counted, Within, InMemory, Rest, Fed;
      ghost var was, vs, used := Msgs(), iov[..], iovused;
      LastEnd(was, iovused);
      var m := msglist[msgused - 1];
      var at := m.start + m.len;
      iov[at] := Iovec(base, len);
      ghost var vs' := iov[..];
      assert vs'[..used] == vs[..used] && vs'[used] == Iovec(base, len);
      msgbytes := msgbytes + len;
      iovused := iovused + 1;
      msglist[msgused - 1] := m.(len := m.len + 1);
      assert Msgs() == Pushed(was) && iov[..] == vs';
      PushAll(memory, iov, vs, vs', was, used, old(msgbytes), iovMax);
    }

    /** A new message if the last one is full; whether add_msghdr succeeds is not looked at. */
    method OpenMessage(grows: bool) returns (limitToMtu: bool)
      requires Building() && 0 < msgused
      modifies this`msglist, this`msgused, this`msgbytes, msglist
      ensures Building() && Pending() == old(Pending()) && (msglist == old(msglist) || fresh(msglist))
      ensures 0 < msgused && NumbersNow() == Opened(old(NumbersNow()), iovMax, grows)
      ensures limitToMtu == (old(msgused) == 1)
      ensures Within(Msgs(), iovMax, 0) <==> old(Within(Msgs(), iovMax, 0))
      ensures old(Fed(memory, iov[..], Msgs())) ==> Fed(memory, iov[..], Msgs())
    {
      hide Linked, Tiled, Counted, Within, InMemory, Rest, Fed;
      LastCounted(memory, iov[..], Msgs(), msgbytes);
      ghost var was := Msgs();
      limitToMtu := msgused == 1;
      if msglist[msgused - 1].len == iovMax || (limitToMtu && msgbytes >= UDP_MAX_PAYLOAD_SIZE) {
        var _ := AddMsghdr(grows);
      }
      assert msglist[msgused - 1] == Msgs()[msgused - 1];
      assert was[|was| - 1] == old(msglist[msgused - 1]);
    }

    /** The start of one pass of add_iov: a new message if needed, and room for one more iovec. */
    method MakeRoom(heap: Heap, pass: nat) returns (ok: bool, limitToMtu: bool)
      requires Building() && 0 < msgused
      modifies this`iov, this`msglist, this`msgused, this`msgbytes, msglist
      ensures Building() && Pending() == old(Pending()) && 0 < msgused
      ensures ok == !NoSpace(Opened(old(NumbersNow()), iovMax, heap.messages(pass)), heap.iovecs(pass))
      ensures NumbersNow() == Spaced(Opened(old(NumbersNow()), iovMax, heap.messages(pass)), heap.iovecs(pass))
      ensures limitToMtu == (old(msgused) == 1) && (ok ==> iovused < iov.Length)
      ensures (iov == old(iov) || fresh(iov)) && (msglist == old(msglist) || fresh(msglist))
      ensures Within(Msgs(), iovMax, 0) <==> old(Within(Msgs(), iovMax, 0))
      ensures old(Fed(memory, iov[..], Msgs())) ==> Fed(memory, iov[..], Msgs())
    {
      hide Linked, Tiled, Counted, Within, InMemory, Rest, Fed, Opened;
      limitToMtu := OpenMessage(heap.messages(pass));
      ok := EnsureIovSpace(heap.iovecs(pass));
    }

    /** One pass of the loop of add_iov. */
    method AddFragment(base: nat, size: nat, heap: Heap, pass: nat) returns (ok: bool, leftover: nat)
      requires Building() && 0 < msgused && base + size <= |memory|
      modifies this`iov, this`msglist, this`msgused, this`msgbytes, this`iovused, iov, msglist
      ensures Building() && 0 < msgused
      ensures (iov == old(iov) || fresh(iov)) && (msglist == old(msglist) || fresh(msglist))
      ensures leftover <= size && (ok && leftover == size ==> size == 0)
      ensures
        var begun := Opened(old(NumbersNow()), iovMax, heap.messages(pass));
        var spaced := Spaced(begun, heap.iovecs(pass));
        && ok == !NoSpace(begun, heap.iovecs(pass))
        && (ok ==>
          && size - leftover == Fragment(old(msgused) == 1, spaced.bytes, size)
          && NumbersNow() == OneMore(spaced, size - leftover)
          && (Within(Msgs(), iovMax, 0) <==> old(Within(Msgs(), iovMax, 0)) && spaced.iovlen < iovMax))
        && (!ok ==> NumbersNow() == begun && (Within(Msgs(), iovMax, 0) <==> old(Within(Msgs(), iovMax, 0))))
      ensures Pending() == old(Pending()) + if ok then memory[base..base + size - leftover] else []
      ensures ok && old(Fed(memory, iov[..], Msgs())) && size > 0 ==> Fed(memory, iov[..], Msgs()) && LastFilled()
    {
      hide Linked, Tiled, Counted, Within, InMemory, Rest, Fed;
      ghost var sent := Pending();
      var limitToMtu;
      ok, limitToMtu := MakeRoom(heap, pass);
      leftover := 0;
      if !ok {
        return;
      }
      assert Pending() == sent;
      LastCounted(memory, iov[..], Msgs(), msgbytes);
      if limitToMtu && size + msgbytes > UDP_MAX_PAYLOAD_SIZE {
        leftover := size + msgbytes - UDP_MAX_PAYLOAD_SIZE;
      }
      PushIov(base, size - leftover);
    }

    /** add_iov does what Adding says: it appends the buffer, or the part that memory is there for, to what is
        pending, and all messages keep to IOV_MAX iovecs exactly if they did before and none gets too many. */
    method AddIov(buf: nat, size: nat, heap: Heap) returns (ok: bool)
      requires Building() && 0 < msgused && buf + size <= |memory|
      modifies this`iov, this`msglist, this`msgused, this`msgbytes, this`iovused, iov, msglist
      ensures Building() && 0 < msgused
      ensures (iov == old(iov) || fresh(iov)) && (msglist == old(msglist) || fresh(msglist))
      ensures
        var r := Adding(old(NumbersNow()), iovMax, size, heap, 0);
        && ok == r.ok && NumbersNow() == r.numbers
        && Pending() == old(Pending()) + memory[buf..buf + r.bytes]
        && (Within(Msgs(), iovMax, 0) <==> old(Within(Msgs(), iovMax, 0)) && !r.overfull)
      ensures ok && old(Fed(memory, iov[..], Msgs())) && size > 0 ==> Fed(memory, iov[..], Msgs()) && LastFilled()
    {
      hide Linked, Tiled, Counted, Within, InMemory, Rest, Fed, Adding, Opened, Spaced, Fragment, OneMore;
      ghost var before, fed := Pending(), Fed(memory, iov[..], Msgs()) && size > 0;
      ghost var n, full := NumbersNow(), false;
      var base: nat, len: nat, pass := buf, size, 0;
      while true
        invariant Building() && 0 < msgused && base + len == buf + size && buf <= base
        invariant Pending() == before + memory[buf..base]
        invariant
          var r := Adding(NumbersNow(), iovMax, len, heap, pass);
          Adding(n, iovMax, size, heap, 0) == r.(bytes := base - buf + r.bytes, overfull := full || r.overfull)
        invariant Within(Msgs(), iovMax, 0) <==> old(Within(Msgs(), iovMax, 0)) && !full
        invariant fed ==> Fed(memory, iov[..], Msgs()) && len > 0
        invariant (iov == old(iov) || fresh(iov)) && (msglist == old(msglist) || fresh(msglist))
        decreases len
      {
        ghost var spaced := Spaced(Opened(NumbersNow(), iovMax, heap.messages(pass)), heap.iovecs(pass));
        AddingPass(NumbersNow(), iovMax, len, heap, pass);
        var leftover;
        ok, leftover := AddFragment(base, len, heap, pass);
        if !ok {
          return;
        }
        full := full || spaced.iovlen >= iovMax;
        Adjacent(memory, buf, base, base + len - leftover);
        base := base + len - leftover;
        len := leftover;
        pass := pass + 1;
        if leftover == 0 {
          break;
        }
      }
    }

    /** The loop of transmit that drops the iovecs sent completely, and the adjustment of one sent in part. */
    method Consume(res: nat)
      requires Valid() && msgcurr < msgused && res <= |Bytes(memory, iov[..], msglist[msgcurr])|
      modifies iov, msglist
      ensures Valid()
      ensures Pending() ==
        old(Bytes(memory, iov[..], msglist[msgcurr]))[res..] + old(Rest(memory, iov[..], Msgs(), msgcurr + 1))
      ensures old(Lively(memory, iov[..], Msgs(), msgcurr)) ==> Lively(memory, iov[..], Msgs(), msgcurr)
      ensures old(msglist[msgcurr].len) <= iovMax ==>
        (Within(Msgs(), iovMax, msgcurr) <==> old(Within(Msgs(), iovMax, msgcurr)))
    {
      hide Rest, Gather, Slice, Lively, Within;
      ghost var vs, was := iov[..], Msgs();
      var m := msglist[msgcurr];
      ghost var all := Bytes(memory, vs, m);
      var left: nat := res;
      assert was[msgcurr] == m && m.start + m.len <= iovused;
      while m.len > 0 && left >= iov[m.start].len
        invariant iov[..] == vs && Msgs() == was && m.list == iov && was[msgcurr].start <= m.start
        invariant m.start + m.len == was[msgcurr].start + was[msgcurr].len
        invariant left <= res && all[res - left..] == Bytes(memory, vs, m) && left <= |Bytes(memory, vs, m)|
        decreases m.len
      {
        assert iov[m.start] == vs[m.start];
        DropFirst(memory, vs, m, iovused);
        assert all[res - left..][vs[m.start].len..] == all[res - left + vs[m.start].len..];
        left := left - iov[m.start].len;
        m := m.(start := m.start + 1, len := m.len - 1);
      }
      msglist[msgcurr] := m;
      assert Msgs() == was[msgcurr := m];
      WithinConsumed(was, iovMax, msgcurr, m);
      if left > 0 {
        EmptyBytes(memory, vs, m);
        assert iov[m.start] == vs[m.start];
        ghost var v := Iovec(vs[m.start].base + left, vs[m.start].len - left);
        AdjustFirst(memory, vs, m, iovused, left, v);
        assert all[res - left..][left..] == all[res..];
        iov[m.start] := Iovec(iov[m.start].base + left, iov[m.start].len - left);
        assert iov[..] == vs[m.start := v];
      }
      ConsumedRest(memory, iov, vs, iov[..], was, iovused, msgcurr, m);
      if m.len > 0 { FirstBusy(memory, iov[..], m, iovused); }
      if Lively(memory, vs, was, msgcurr) { LivelyConsumed(memory, iov, vs, iov[..], was, iovused, msgcurr, m); }
    }

    /** What sendmsg answers for message `k` when it is willing to take `want` bytes: it takes no message of more than
        IOV_MAX iovecs. */
    ghost function Answer(want: int, k: nat): int
      reads this, iov, msglist
      requires k < msgused <= msglist.Length
    {
      if msglist[k].len > iovMax then -1 else Least(want, |Bytes(memory, iov[..], msglist[k])|)
    }

    /** sendmsg, and what transmit does with a positive result. */
    method SendMessage(want: int) returns (res: int)
      requires Valid() && msgcurr < msgused
      modifies this`wire, iov, msglist
      ensures Valid() && wire + Pending() == old(wire + Pending()) && old(wire) <= wire
      ensures res == old(Answer(want, msgcurr))
      ensures Within(Msgs(), iovMax, msgcurr) <==> old(Within(Msgs(), iovMax, msgcurr))
      ensures |wire| == old(|wire|) + if res > 0 then res else 0
      ensures old(Lively(memory, iov[..], Msgs(), msgcurr)) ==> Lively(memory, iov[..], Msgs(), msgcurr)
    {
      hide Linked, InMemory, Rest, Gather, Slice, Lively, Within;
      ghost var sent, later := Bytes(memory, iov[..], msglist[msgcurr]), Rest(memory, iov[..], Msgs(), msgcurr + 1);
      var available := |Bytes(memory, iov[..], msglist[msgcurr])|;
      if msglist[msgcurr].len > iovMax {
        return -1;
      }
      res := if want < available then want else available;
      if res > 0 {
        RestAt(memory, iov[..], Msgs(), msgcurr);
        Consume(res);
        assert sent[..res] + (sent[res..] + later) == sent + later;
        wire := wire + sent[..res];
      }
    }

    /** The message transmit turns to: the next one if the current one is used up. */
    function Turn(): nat
      reads this, msglist
      requires msgused <= msglist.Length
    {
      if msgcurr < msgused && msglist[msgcurr].len == 0 then msgcurr + 1 else msgcurr
    }

    /** transmit. sendmsg accepts up to `want` bytes of the current message, or reports an error when `want` is not
        positive or the message has too many iovecs; `again` says that an error of the first kind is EAGAIN or
        EWOULDBLOCK, `updated` that update_event succeeds. */
    method Transmit(want: int, again: bool, updated: bool) returns (r: TransmitResult)
      requires Valid()
      modifies this`msgcurr, this`wire, iov, msglist
      ensures Valid() && wire + Pending() == old(wire + Pending()) && old(wire) <= wire && msgcurr == old(Turn())
      ensures if old(Turn()) >= msgused then r == Complete && Pending() == [] && wire == old(wire)
        else
          var res := old(Answer(want, Turn()));
          var soft := res == -1 && again && updated && old(msglist[Turn()].len) <= iovMax;
          && |wire| == old(|wire|) + (if res > 0 then res else 0)
          && r == if res > 0 then Incomplete else if soft then SoftError else HardError
      ensures Within(Msgs(), iovMax, msgcurr) <==> old(Within(Msgs(), iovMax, msgcurr))
      ensures old(Lively(memory, iov[..], Msgs(), msgcurr)) ==> Lively(memory, iov[..], Msgs(), msgcurr)
    {
      hide Linked, InMemory, Rest, Bytes, Busy;
      SkipEmpty(memory, iov[..], Msgs(), msgcurr);
      if msgcurr < msgused && msglist[msgcurr].len == 0 {
        msgcurr := msgcurr + 1;
      }
      if msgcurr < msgused {
        var tooMany := msglist[msgcurr].len > iovMax;
        var res := SendMessage(want);
        if res > 0 {
          return Incomplete;
        }
        if res == -1 && again && !tooMany {
          return if updated then SoftError else HardError;
        }
        return HardError;
      } else {
        RestEnd(memory, iov[..], Msgs(), msgcurr);
        return Complete;
      }
    }

    /** conn_mwrite, for any sequence of socket outcomes: what has been sent is always a prefix of the reply, and
        all of it once transmit reports completion. If every message has something to send, the socket always takes
        something and there are enough outcomes, it completes, unless a message has too many iovecs: then it never
        does. */
    method Drive(wants: seq<int>) returns (done: bool)
      requires Valid() && wire == []
      modifies this`msgcurr, this`wire, iov, msglist
      ensures Valid() && wire + Pending() == old(Pending())
      ensures done ==> wire == old(Pending()) && old(Within(Msgs(), iovMax, msgcurr))
      ensures
        && old(Lively(memory, iov[..], Msgs(), msgcurr)) && old(Within(Msgs(), iovMax, msgcurr))
        && |wants| > old(|Pending()|) && Willing(wants)
        ==> done
    {
      hide Linked, InMemory, Rest, Lively, Bytes, Within;
      done := false;
      ghost var within := Within(Msgs(), iovMax, msgcurr);
      ghost var lively := Lively(memory, iov[..], Msgs(), msgcurr) && within && Willing(wants);
      for i := 0 to |wants|
        invariant Valid() && wire + Pending() == old(Pending())
        invariant Within(Msgs(), iovMax, msgcurr) <==> within
        invariant lively ==> Lively(memory, iov[..], Msgs(), msgcurr) && |wire| >= i
      {
        TakesSome(memory, iov[..], Msgs(), msgcurr, iovMax);
        var r := Transmit(wants[i], true, true);
        if r == Complete {
          AllWithin(Msgs(), iovMax, msgcurr);
          return true;
        }
        if r == HardError {
          return false;
        }
      }
    }

    /** The start of process_command: the lists are emptied and the first message opened. */
    method StartReply()
      requires Valid()
      modifies this`iovused, this`msgcurr, this`msgused, this`msglist, this`msgbytes, msglist
      ensures Building() && Pending() == [] && (msglist == old(msglist) || fresh(msglist))
      ensures Fed(memory, iov[..], Msgs()) && msgused == 1 && Within(Msgs(), iovMax, 0)
      ensures NumbersNow() == Numbers(1, old(msglist.Length), 0, 0, 0, iov.Length)
    {
      hide Linked, InMemory, Rest, Tiled, Counted, Within, Fed;
      msgcurr, msgused, iovused := 0, 0, 0;
      assert Msgs() == [];
      EmptyReply(memory, iov, iov[..]);
      AllWithin(Msgs(), iovMax, 0);
      assert Fed(memory, iov[..], Msgs()) by { NothingFed(memory, iov[..]); }
      var ok := AddMsghdr(false);
    }

    /** A reply is built from `bufs`, up to the first failure. */
    method Build(bufs: seq<Iovec>, heaps: nat -> Heap) returns (built: bool)
      requires Building() && msgused == 1 && Pending() == [] && Within(Msgs(), iovMax, 0)
      requires Fed(memory, iov[..], Msgs())
      requires InMemory(memory, bufs, |bufs|)
      modifies this`iov, this`msglist, this`msgused, this`msgbytes, this`iovused, iov, msglist
      ensures Building() && (iov == old(iov) || fresh(iov)) && (msglist == old(msglist) || fresh(msglist))
      ensures
        var r := AddingEach(old(NumbersNow()), iovMax, bufs, heaps, 0);
        && built == r.ok && r.bytes <= |Gather(memory, bufs)| && Pending() == Gather(memory, bufs)[..r.bytes]
        && (built ==> r.bytes == |Gather(memory, bufs)|) && (Within(Msgs(), iovMax, 0) <==> !r.overfull)
      ensures built && NoneEmpty(bufs) ==> Lively(memory, iov[..], Msgs(), 0)
    {
      hide Linked, Rest, Tiled, Counted, Within, Gather, Fed, Lively, Adding;
      GatherNone(memory, bufs);
      built := true;
      ghost var n, added, full := NumbersNow(), 0, false;
      for i := 0 to |bufs|
        invariant built && Building() && 0 < msgused && Pending() == Gather(memory, bufs[..i])
        invariant added == |Pending()| && (Within(Msgs(), iovMax, 0) <==> !full)
        invariant
          var r := AddingEach(NumbersNow(), iovMax, bufs, heaps, i);
          AddingEach(n, iovMax, bufs, heaps, 0) == r.(bytes := added + r.bytes, overfull := full || r.overfull)
        invariant (iov == old(iov) || fresh(iov)) && (msglist == old(msglist) || fresh(msglist))
        invariant NoneEmpty(bufs) ==> Fed(memory, iov[..], Msgs()) && if i == 0 then msgused == 1 else LastFilled()
      {
        GatherNext(memory, bufs, i);
        ghost var r := Adding(NumbersNow(), iovMax, bufs[i].len, heaps(i), 0);
        PartGathered(memory, bufs, i, r.bytes);
        built := AddIov(bufs[i].base, bufs[i].len, heaps(i));
        added, full := added + r.bytes, full || r.overfull;
        if !built {
          return;
        }
      }
      if NoneEmpty(bufs) { FedLively(memory, iov[..], Msgs()); }
    }

    /** A whole reply made of `bufs`, for any sequence of socket outcomes and any failures of realloc: the client sees
        a prefix of the bytes add_iov has added, and all of them once transmit reports completion. If everything was
        added, no buffer is empty and the socket takes something often enough, it completes exactly if no message got
        too many iovecs. `heaps` says which reallocs succeed. */
    method Reply(bufs: seq<Iovec>, heaps: nat -> Heap, wants: seq<int>) returns (built: bool, done: bool)
      requires Valid() && wire == [] && InMemory(memory, bufs, |bufs|)
      modifies this, iov, msglist
      ensures
        var r := AddingEach(Numbers(1, old(msglist.Length), 0, 0, 0, old(iov.Length)), iovMax, bufs, heaps, 0);
        && Valid() && built == r.ok && r.bytes <= |Gather(memory, bufs)|
        && wire <= Gather(memory, bufs)[..r.bytes]
        && (done ==> wire == Gather(memory, bufs)[..r.bytes] && !r.overfull)
        && (built ==> r.bytes == |Gather(memory, bufs)|)
        && (built && NoneEmpty(bufs) && Willing(wants) && |wants| > |Gather(memory, bufs)| ==> done == !r.overfull)
    {
      hide Linked, Rest, Tiled, Counted, Within, Gather, Fed, Lively, AddingEach;
      StartReply();
      built := Build(bufs, heaps);
      ghost var all := Pending();
      done := Drive(wants);
      assert wire <= all;
    }
  }

  /** The part of buffer number `i` that is added continues the buffers before it. */
  lemma PartGathered(memory: seq<byte>, bufs: seq<Iovec>, i: nat, part: nat)
    requires i < |bufs| && part <= bufs[i].len && InMemory(memory, bufs, |bufs|)
    ensures
      var before := |Gather(memory, bufs[..i])|;
      && before + part <= |Gather(memory, bufs)| && bufs[i].base + part <= |memory|
      && Gather(memory, bufs)[..before + part] ==
        Gather(memory, bufs[..i]) + memory[bufs[i].base..bufs[i].base + part]
  {
    hide Gather;
    GatherNext(memory, bufs, i);
    assert bufs == bufs[..i + 1] + bufs[i + 1..];
    GatherAppend(memory, bufs[..i + 1], bufs[i + 1..]);
    assert Segment(memory, bufs[i])[..part] == memory[bufs[i].base..bufs[i].base + part];
  }

  predicate NoneEmpty(bufs: seq<Iovec>) {
    forall i :: 0 <= i < |bufs| ==> bufs[i].len > 0
  }

  predicate Willing(wants: seq<int>) {
    forall i :: 0 <= i < |wants| ==> wants[i] > 0
  }

  lemma GatherNone(memory: seq<byte>, bufs: seq<Iovec>)
    ensures Gather(memory, bufs[..0]) == [] && bufs[..|bufs|] == bufs
  {}

  lemma GatherNext(memory: seq<byte>, bufs: seq<Iovec>, i: nat)
    requires i < |bufs|
    ensures Gather(memory, bufs[..i + 1]) == Gather(memory, bufs[..i]) + Segment(memory, bufs[i])
  {
    assert bufs[..i + 1] == bufs[..i] + [bufs[i]];
    GatherAppend(memory, bufs[..i], [bufs[i]]);
    GatherOne(memory, bufs[i]);
  }

  /** The message a lively reply turns to has something to send. */
  lemma TakesSome(memory: seq<byte>, vs: seq<Iovec>, msgs: seq<MsgHdr>, k: nat, iovMax: nat)
    ensures Lively(memory, vs, msgs, k) && k < |msgs| ==>
      var turn := if msgs[k].len == 0 then k + 1 else k;
      turn < |msgs| ==> |Bytes(memory, vs, msgs[turn])| > 0 && (Within(msgs, iovMax, k) ==> msgs[turn].len <= iovMax)
  {}

  lemma WithinConsumed(msgs: seq<MsgHdr>, iovMax: nat, k: nat, m: MsgHdr)
    requires k < |msgs| && m.len <= msgs[k].len
    ensures msgs[k].len <= iovMax ==> (Within(msgs[k := m], iovMax, k) <==> Within(msgs, iovMax, k))
  {
    assert forall i :: k < i < |msgs| ==> msgs[k := m][i] == msgs[i];
  }

  lemma AllWithin(msgs: seq<MsgHdr>, iovMax: nat, k: nat)
    requires k >= |msgs|
    ensures Within(msgs, iovMax, k)
  {}

  lemma FedLively(memory: seq<byte>, vs: seq<Iovec>, msgs: seq<MsgHdr>)
    requires Fed(memory, vs, msgs) && (|msgs| == 1 || (|msgs| > 1 && msgs[|msgs| - 1].len > 0))
    ensures Lively(memory, vs, msgs, 0)
  {}

  lemma EmptyReply(memory: seq<byte>, list: array<Iovec>, vs: seq<Iovec>)
    ensures Linked(list, [], 0) && InMemory(memory, vs, 0) && Rest(memory, vs, [], 0) == []
  {}

  lemma NothingFed(memory: seq<byte>, vs: seq<Iovec>)
    ensures Fed(memory, vs, [])
  {}

  lemma DropFirst(memory: seq<byte>, vs: seq<Iovec>, m: MsgHdr, used: nat)
    requires m.len > 0 && m.start + m.len <= used && InMemory(memory, vs, used)
    ensures |Bytes(memory, vs, m)| >= vs[m.start].len
    ensures Bytes(memory, vs, m.(start := m.start + 1, len := m.len - 1)) == Bytes(memory, vs, m)[vs[m.start].len..]
  {
    var s := Slice(vs, m.start, m.len);
    assert s[1..] == Slice(vs, m.start + 1, m.len - 1);
  }

  lemma AdjustFirst(memory: seq<byte>, vs: seq<Iovec>, m: MsgHdr, used: nat, left: nat, v: Iovec)
    requires m.len > 0 && m.start + m.len <= used && InMemory(memory, vs, used)
    requires left < vs[m.start].len && v == Iovec(vs[m.start].base + left, vs[m.start].len - left)
    ensures left <= |Bytes(memory, vs, m)| && Bytes(memory, vs[m.start := v], m) == Bytes(memory, vs, m)[left..]
  {
    var vs' := vs[m.start := v];
    assert Slice(vs', m.start, m.len)[1..] == Slice(vs, m.start, m.len)[1..];
    assert Segment(memory, v) == Segment(memory, vs[m.start])[left..];
  }

  lemma EmptyBytes(memory: seq<byte>, vs: seq<Iovec>, m: MsgHdr)
    ensures m.len == 0 ==> Bytes(memory, vs, m) == []
  {}

  /** Only the current message and its own iovecs change. */
  lemma ConsumedRest(memory: seq<byte>, list: array<Iovec>, vs: seq<Iovec>, vs': seq<Iovec>, msgs: seq<MsgHdr>,
      used: nat, k: nat, m: MsgHdr)
    requires Linked(list, msgs, used) && InMemory(memory, vs, used) && k < |msgs|
    requires m.list == list && msgs[k].start <= m.start && m.start + m.len == msgs[k].start + msgs[k].len
    requires vs' == vs || (m.len > 0 && m.start < |vs'| == |vs| && vs' == vs[m.start := vs'[m.start]] &&
      vs'[m.start].base + vs'[m.start].len <= |memory|)
    ensures Linked(list, msgs[k := m], used) && InMemory(memory, vs', used)
    ensures Rest(memory, vs', msgs[k := m], k) == Bytes(memory, vs', m) + Rest(memory, vs, msgs, k + 1)
  {
    hide Slice, Gather, Linked;
    var msgs' := msgs[k := m];
    ConsumedLinks(list, msgs, used, k, m);
    forall i | k + 1 <= i < |msgs|
      ensures Slice(vs', msgs'[i].start, msgs'[i].len) == Slice(vs, msgs[i].start, msgs[i].len)
    {
      LaterSlice(list, vs, vs', msgs, used, k, i, m);
    }
    RestFrame(memory, vs, vs', msgs, msgs', k + 1);
  }

  lemma ConsumedLinks(list: array<Iovec>, msgs: seq<MsgHdr>, used: nat, k: nat, m: MsgHdr)
    requires Linked(list, msgs, used) && k < |msgs|
    requires m.list == list && msgs[k].start <= m.start && m.start + m.len == msgs[k].start + msgs[k].len
    ensures Linked(list, msgs[k := m], used)
  {}

  lemma LaterSlice(list: array<Iovec>, vs: seq<Iovec>, vs': seq<Iovec>, msgs: seq<MsgHdr>, used: nat, k: nat, i: nat,
                   m: MsgHdr)
    requires Linked(list, msgs, used) && k < i < |msgs| && m.start + m.len == msgs[k].start + msgs[k].len
    requires vs' == vs || (m.len > 0 && m.start < |vs'| == |vs| && vs' == vs[m.start := vs'[m.start]])
    ensures Slice(vs', msgs[i].start, msgs[i].len) == Slice(vs, msgs[i].start, msgs[i].len)
  {
    assert msgs[k].start + msgs[k].len <= msgs[i].start;
  }

  lemma SkipEmpty(memory: seq<byte>, vs: seq<Iovec>, msgs: seq<MsgHdr>, k: nat)
    ensures k < |msgs| && msgs[k].len == 0 ==> Rest(memory, vs, msgs, k + 1) == Rest(memory, vs, msgs, k)
  {}

  lemma RestAt(memory: seq<byte>, vs: seq<Iovec>, msgs: seq<MsgHdr>, k: nat)
    requires k < |msgs|
    ensures Rest(memory, vs, msgs, k) == Bytes(memory, vs, msgs[k]) + Rest(memory, vs, msgs, k + 1)
  {}

  lemma RestEnd(memory: seq<byte>, vs: seq<Iovec>, msgs: seq<MsgHdr>, k: nat)
    requires k >= |msgs|
    ensures Rest(memory, vs, msgs, k) == []
  {}

  lemma Adjacent(memory: seq<byte>, a: nat, b: nat, c: nat)
    requires a <= b <= c <= |memory|
    ensures memory[a..b] + memory[b..c] == memory[a..c]
  {}

  lemma LastEnd(msgs: seq<MsgHdr>, used: nat)
    requires Tiled(msgs, used)
    ensures |msgs| > 0 && msgs[|msgs| - 1].start + msgs[|msgs| - 1].len == used
  {}

  lemma LastCounted(memory: seq<byte>, vs: seq<Iovec>, msgs: seq<MsgHdr>, msgbytes: nat)
    requires Counted(memory, vs, msgs, msgbytes)
    ensures |msgs| > 0 && (|msgs| == 1 ==> msgbytes <= UDP_MAX_PAYLOAD_SIZE)
    ensures msgbytes > 0 ==> msgs[|msgs| - 1].len > 0 && Busy(memory, vs, msgs[|msgs| - 1])
  {
    if msgbytes > 0 { NoBytes(memory, vs, msgs[|msgs| - 1]); }
  }

  lemma InMemoryPushed(memory: seq<byte>, vs: seq<Iovec>, vs': seq<Iovec>, used: nat)
    requires InMemory(memory, vs, used) && used < |vs'| && vs'[..used] == vs[..used]
    requires vs'[used].base + vs'[used].len <= |memory|
    ensures InMemory(memory, vs', used + 1)
  {
    assert forall i :: 0 <= i < used ==> vs'[i] == vs'[..used][i] == vs[..used][i] == vs[i];
  }

  /** The total length of the first `k` messages. */
  function PrefixLen(msgs: seq<MsgHdr>, k: nat): nat
    requires k <= |msgs|
  {
    if k == 0 then 0 else PrefixLen(msgs, k - 1) + msgs[k - 1].len
  }

  lemma {:induction false} TiledStart(msgs: seq<MsgHdr>, used: nat, i: nat)
    requires Tiled(msgs, used) && i < |msgs|
    ensures msgs[i].start == PrefixLen(msgs, i)
  {
    if i > 0 { TiledStart(msgs, used, i - 1); }
  }

  lemma RepointSelf(list: array<Iovec>, msgs: seq<MsgHdr>, used: nat)
    requires Linked(list, msgs, used)
    ensures Repointed(msgs, list, |msgs|) == msgs
  {
    assert forall i :: 0 <= i < |msgs| ==> Repointed(msgs, list, |msgs|)[i] == msgs[i];
  }

  lemma InMemoryGrown(memory: seq<byte>, vs: seq<Iovec>, vs': seq<Iovec>, used: nat)
    requires InMemory(memory, vs, used) && used <= |vs'| && vs'[..used] == vs[..used]
    ensures InMemory(memory, vs', used)
  {
    assert forall i :: 0 <= i < used ==> vs'[i] == vs'[..used][i] == vs[..used][i] == vs[i];
  }

  lemma FirstMessage(list: array<Iovec>)
    ensures Tiled([MsgHdr(list, 0, 0)], 0)
  {}
}