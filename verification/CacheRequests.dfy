/** From the bytes of an update request to what a lookup finds: the command line and the data block that Request cuts
    out of the stream become commands of CacheCommands. */
module CacheRequests {
  import opened Basics
  import opened CacheSpec
  import opened CacheInvariant
  import opened CacheRuns
  import opened CacheCommands
  import Counters
  import Request
  import ProcessCommand

  // ----- What a successful store leaves

  /** The bytes under the key of item `a` after it has been stored. */
  function NewData(s: State, a: Addr, comm: StoreCommand): Bytes
    requires a in s.items
  {
    var g := GetItem(s, s.items[a].key);
    if comm in {Append, Prepend} && g.found.Some? && g.found.value in s.items then
      var prior := s.items[g.found.value].data;
      if comm == Append then Joined(prior, s.items[a].data) else Joined(s.items[a].data, prior)
    else s.items[a].data
  }

  /** An append or prepend keeps the expiry time of the old item. */
  function NewExpiry(s: State, a: Addr, comm: StoreCommand): nat
    requires a in s.items
  {
    var g := GetItem(s, s.items[a].key);
    if comm in {Append, Prepend} && g.found.Some? && g.found.value in s.items then s.items[g.found.value].exptime
    else s.items[a].exptime
  }

  /** The key has an item with these bytes, linked in this second. */
  predicate Has(s: State, key: Bytes, data: Bytes, exptime: nat) {
    && key in s.table && s.table[key] in s.items
    && var it := s.items[s.table[key]];
      it.linked && it.data == data && it.exptime == exptime && it.time == s.now && !it.deleted
  }

  predicate SameClock(s: State, t: State) { t.now == s.now && t.oldestLive == s.oldestLive }

  lemma LinkHas(s: State, a: Addr)
    requires a in s.items && !s.items[a].deleted
    ensures Has(LinkItem(s, a), s.items[a].key, s.items[a].data, s.items[a].exptime)
    ensures LinkItem(s, a).table[s.items[a].key] == a && SameClock(s, LinkItem(s, a))
  {}

  /** Releasing an item other than the one under the key, or that one, which stays because it is linked. */
  lemma RemoveHas(s: State, b: Addr, key: Bytes, data: Bytes, exptime: nat)
    requires Has(s, key, data, exptime)
    ensures Has(RemoveItem(s, b), key, data, exptime) && SameClock(s, RemoveItem(s, b))
  {}

  lemma LinkOverHas(s: State, a: Addr, prior: Option<Addr>)
    requires Inv(s) && a in s.items && !s.items[a].linked && !s.items[a].deleted
    requires prior.Some? ==> prior.value != a && prior.value in s.held
    ensures Has(LinkOver(s, a, prior), s.items[a].key, s.items[a].data, s.items[a].exptime)
    ensures SameClock(s, LinkOver(s, a, prior))
  {
    hide TableInv, LruInv, CasInv, DeleteInv, TimeInv, StatInv, UnlinkItem, LinkItem, RemoveItem;
    match prior
    case None => LinkHas(s, a);
    case Some(b) =>
      UnlinkOther(s, a, b);
      LinkHas(UnlinkItem(s, b), a);
      RemoveHas(ReplaceItem(s, b, a), b, s.items[a].key, s.items[a].data, s.items[a].exptime);
  }

  lemma UnlinkOther(s: State, a: Addr, b: Addr)
    requires a in s.items && a != b
    ensures a in UnlinkItem(s, b).items && UnlinkItem(s, b).items[a] == s.items[a]
    ensures SameClock(s, UnlinkItem(s, b)) && UnlinkItem(s, b).held == s.held
  {}

  /** After the lookup of do_store_item the item to store is as before. */
  lemma LookedUp(s: State, a: Addr, key: Bytes)
    requires Inv(s) && a in s.held && a in s.items && !s.items[a].linked && s.items[a].key == key
    ensures var g := GetItem(s, key);
      && Inv(g.state) && a in g.state.items && g.state.items[a] == s.items[a] && SameClock(s, g.state)
      && a in g.state.held
      && (g.found.Some? ==>
          && g.found.value != a && g.found.value in g.state.held && g.found.value in s.items
          && g.found.value in g.state.items && g.state.items[g.found.value].data == s.items[g.found.value].data
          && g.state.items[g.found.value].exptime == s.items[g.found.value].exptime
          && g.state.items[g.found.value].linked && g.state.items[g.found.value].key == key)
  {
    hide TableInv, LruInv, CasInv, RefInv, DeleteInv, TimeInv, StatInv, UnlinkItem;
    GetKeeps(s, key);
    HeldFacts(s, a);
    if key in s.table {
      TableFacts(s, key);
      UnlinkOther(s, a, s.table[key]);
    }
  }

  /** A store that answers STORED leaves the new bytes under the key. */
  lemma StoredHas(s: State, a: Addr, comm: StoreCommand, o: Allocation)
    requires Inv(s) && Enabled(s, Complete(a, comm, o)) && !s.items[a].deleted
    requires StoreItem(s, a, comm, o).result == Stored
    ensures Has(StoreItem(s, a, comm, o).state, s.items[a].key, NewData(s, a, comm), NewExpiry(s, a, comm))
    ensures SameClock(s, StoreItem(s, a, comm, o).state)
  {
    hide TableInv, LruInv, CasInv, RefInv, DeleteInv, TimeInv, StatInv, LinkOver, GetItem, StoreJoined, RemoveItem;
    var key := s.items[a].key;
    LookedUp(s, a, key);
    var g := GetItem(s, key);
    if comm in {Append, Prepend} {
      JoinedHas(g.state, a, g.found.value, comm, o);
    } else if g.locked {
      NoCheckUp(s, a, key);
      LinkOverHas(GetNoCheck(g.state, key).state, a, GetNoCheck(g.state, key).found);
    } else {
      LinkOverHas(g.state, a, g.found);
    }
  }

  lemma NoCheckUp(s: State, a: Addr, key: Bytes)
    requires Inv(s) && a in s.held && a in s.items && !s.items[a].linked && s.items[a].key == key
    requires GetItem(s, key).locked
    ensures var h := GetNoCheck(GetItem(s, key).state, key);
      && Inv(h.state) && a in h.state.items && h.state.items[a] == s.items[a] && SameClock(s, h.state)
      && (h.found.Some? ==> h.found.value != a && h.found.value in h.state.held)
  {
    hide TableInv, LruInv, CasInv, RefInv, DeleteInv, TimeInv, StatInv;
    GetKeeps(s, key);
    TableFacts(s, key);
    TakeRefSound(s, s.table[key]);
  }

  lemma JoinedHas(s: State, a: Addr, b: Addr, comm: StoreCommand, o: Allocation)
    requires Inv(s) && a in s.items && b in s.items && a in s.held && b in s.held && a != b && !s.items[a].linked
    requires s.items[b].linked && s.items[b].key == s.items[a].key && comm in {Append, Prepend}
    requires AllocationOk(s, o, |s.items[a].data| + |s.items[b].data| - 2)
    requires StoreJoined(s, a, b, comm, o).result == Stored
    ensures Has(StoreJoined(s, a, b, comm, o).state, s.items[a].key,
      if comm == Append then Joined(s.items[b].data, s.items[a].data) else Joined(s.items[a].data, s.items[b].data),
      s.items[b].exptime)
    ensures SameClock(s, StoreJoined(s, a, b, comm, o).state)
  {
    hide TableInv, LruInv, CasInv, RefInv, DeleteInv, TimeInv, StatInv, LinkOver, RemoveItem, AllocItem;
    HeldFacts(s, a);
    HeldFacts(s, b);
    AllocSound(s, s.items[a].key, s.items[b].exptime, o, |s.items[a].data| + |s.items[b].data| - 2);
    AllocHeader(s, s.items[a].key, s.items[b].exptime, o);
    RefData(s);
    var r := AllocItem(s, s.items[a].key, s.items[b].exptime, o);
    var n := r.found.value;
    var data := if comm == Append then Joined(s.items[b].data, s.items[a].data)
                else Joined(s.items[a].data, s.items[b].data);
    SetDataSound(r.state, n, data);
    LinkOverHas(SetData(r.state, n, data), n, Some(b));
    RemoveHas(LinkOver(SetData(r.state, n, data), n, Some(b)), n, s.items[a].key, data, s.items[b].exptime);
  }

  lemma AllocHeader(s: State, key: Bytes, exptime: nat, o: Allocation)
    ensures var r := AllocItem(s, key, exptime, o);
      r.found.Some? ==>
        r.found.value in r.state.items && r.state.items[r.found.value].exptime == exptime
        && !r.state.items[r.found.value].deleted && r.state.items[r.found.value].key == key && SameClock(s, r.state)
  {}

  /** A store that answers STORED makes a lookup in the same second find the new bytes, unless they are born expired or
      a flush time falls on this very second. */
  lemma StoredReads(s: State, a: Addr, comm: StoreCommand, o: Allocation)
    requires Inv(s) && Enabled(s, Complete(a, comm, o)) && !s.items[a].deleted
    requires StoreItem(s, a, comm, o).result == Stored
    ensures var t, key := Step(s, Complete(a, comm, o)), s.items[a].key;
      var e := NewExpiry(s, a, comm);
      && Has(t, key, NewData(s, a, comm), e)
      && (GetItem(t, key).found.Some? <==> (s.oldestLive == 0 || s.oldestLive != s.now) && (e == 0 || e > s.now))
      && (GetItem(t, key).found.Some? ==>
          GetItem(t, key).found == Some(t.table[key])
          && GetItem(t, key).state.items[t.table[key]].data == NewData(s, a, comm))
  {
    hide TableInv, LruInv, CasInv, RefInv, DeleteInv, TimeInv, StatInv, GetItem, StoreItem, UnlinkItem;
    var key, u := s.items[a].key, StoreItem(s, a, comm, o).state;
    StoredHas(s, a, comm, o);
    RemoveHas(u, a, key, NewData(s, a, comm), NewExpiry(s, a, comm));
    RemoveFrame(u, a);
    HasReads(RemoveItem(u, a), key, NewData(s, a, comm), NewExpiry(s, a, comm));
  }

  lemma HasReads(t: State, key: Bytes, data: Bytes, e: nat)
    requires Has(t, key, data, e)
    ensures var g := GetItem(t, key);
      && (g.found.Some? <==> (t.oldestLive == 0 || t.oldestLive != t.now) && (e == 0 || e > t.now))
      && (g.found.Some? ==>
          && g.found == Some(t.table[key]) && t.table[key] in g.state.items
          && g.state.items[t.table[key]].data == data)
  {}

  // ----- From the stream to the cache

  /** The commands of process_command that store. */
  function StoreCommandOf(word: Bytes): Option<StoreCommand> {
    if word == ProcessCommand.ADD then Some(Add)
    else if word == ProcessCommand.SET then Some(Set)
    else if word == ProcessCommand.REPLACE then Some(Replace)
    else if word == ProcessCommand.PREPEND then Some(Prepend)
    else if word == ProcessCommand.APPEND then Some(Append)
    else if word == ProcessCommand.CAS then Some(Cas)
    else None
  }

  function Words(line: Bytes): seq<Bytes> { ProcessCommand.Tokens(line, ProcessCommand.MAX_TOKENS - 1) }

  const UINT64: nat := 0x1_0000_0000_0000_0000

  /** The command in front of a line that is accepted, its key and its expiry time. */
  datatype Update = Update(comm: StoreCommand, key: Bytes, exptime: nat, cas: nat)

  function UpdateOf(s: State, line: Bytes): Option<Update> {
    var words := Words(line);
    if |words| < 5 || StoreCommandOf(words[0]).None? then None
    else
      var comm := StoreCommandOf(words[0]).value;
      var cas := if comm == Cas && |words| > 5 then ProcessCommand.Number(words[5]) % UINT64 else 0;
      Some(Update(comm, words[1], Realtime(ProcessCommand.Number(words[3]), s.now, s.started), cas))
  }

  /** process_update_command, the arrival of the data block in item `a`, and complete_nread, which stores only a block
      that ends a line. */
  function UpdateCommands(u: Update, data: Bytes, a: Addr, o: Allocation, o2: Allocation): seq<Command> {
    [Begin(u.key, u.exptime, u.comm, u.cas, o), Receive(a, data),
     if Counters.EndsLine(data) then Complete(a, u.comm, o2) else Release(a)]
  }

  /** A line whose item is accepted has a storage command in front and at least four arguments. */
  lemma AcceptedWords(env: ProcessCommand.Env, k: nat, line: Bytes, s: State)
    ensures ProcessCommand.LineOutcome(env, k, line).Accept? ==> UpdateOf(s, line).Some?
  {
    hide ProcessCommand.Tokens, ProcessCommand.Number, ProcessCommand.ItemSize, Realtime;
  }

  /** The state between the arrival of the data block and complete_nread. */
  function Arrived(s: State, u: Update, data: Bytes, a: Addr, o: Allocation): State {
    var s1 := BeginStep(s, u.key, u.exptime, u.comm, u.cas, o);
    if a in s1.items then SetData(s1, a, data) else s1
  }

  lemma ArrivedFacts(s: State, u: Update, data: Bytes, a: Addr, o: Allocation)
    requires Inv(s) && AllocationOk(s, o, |data|) && AllocItem(s, u.key, u.exptime, o).found == Some(a)
    ensures var t := Arrived(s, u, data, a, o);
      && SameClock(s, t) && a in t.items && t.items[a].key == u.key && t.items[a].data == data
      && t.items[a].exptime == u.exptime && !t.items[a].linked && !t.items[a].deleted
      && t.held == s.held + multiset{a} && t.table == AllocItem(s, u.key, u.exptime, o).state.table
  {
    hide TableInv, LruInv, CasInv, RefInv, DeleteInv, TimeInv, StatInv, AllocItem, AllocationOk;
    AllocSound(s, u.key, u.exptime, o, |data|);
    AllocHeader(s, u.key, u.exptime, o);
  }

  lemma ExecUpdate(s: State, u: Update, data: Bytes, a: Addr, o: Allocation, o2: Allocation)
    requires RunOk(s, UpdateCommands(u, data, a, o, o2))
    ensures var t, last := Arrived(s, u, data, a, o), UpdateCommands(u, data, a, o, o2)[2];
      && Exec(s, UpdateCommands(u, data, a, o, o2)) == Step(t, last) && Enabled(t, last)
      && AllocationOk(s, o, |o.stale.data|)
  {
    hide BeginStep, SetData, StoreItem, RemoveItem, GetItem, AllocationOk, StoreAllocationOk, Repair;
    var cs := UpdateCommands(u, data, a, o, o2);
    var s1 := Step(s, cs[0]);
    var s2 := Step(s1, cs[1]);
    assert cs[1..][1..][1..] == [] && cs[1..][0] == cs[1] && cs[1..][1..][0] == cs[2];
    assert RunOk(s1, cs[1..]) && RunOk(s2, cs[1..][1..]);
    assert Exec(s2, cs[1..][1..]) == Step(s2, cs[2]);
  }

  /** What an update request does to the cache once its line has been accepted: a store that answers STORED leaves the
      new bytes under the key, and a lookup in the same second finds them, unless they are born expired or a flush time
      falls on this second. A set always answers STORED, and its bytes are the data block. A block that does not end a
      line is not stored. */
  lemma UpdateStores(s: State, u: Update, data: Bytes, a: Addr, o: Allocation, o2: Allocation)
    requires Inv(s) && RunOk(s, UpdateCommands(u, data, a, o, o2))
    requires |o.stale.data| == |data| && AllocItem(s, u.key, u.exptime, o).found == Some(a)
    ensures
      var t, s2 := Exec(s, UpdateCommands(u, data, a, o, o2)), Arrived(s, u, data, a, o);
      && Inv(t) && t.held == s.held && a in s2.items
      && (!Counters.EndsLine(data) ==> t.table == AllocItem(s, u.key, u.exptime, o).state.table)
      && (Counters.EndsLine(data) && StoreItem(s2, a, u.comm, o2).result == Stored ==> Readable(s, t, s2, u, a))
      && (u.comm == Set ==> StoreItem(s2, a, Set, o2).result == Stored && NewData(s2, a, Set) == data)
  {
    hide Inv, AllocItem, AllocationOk, StoreItem, RemoveItem, GetItem, StoreAllocationOk, Repair, Arrived, NewData;
    hide NewExpiry, RunOk, Exec, Has;
    ExecUpdate(s, u, data, a, o, o2);
    ArrivedFacts(s, u, data, a, o);
    RunKeepsInv(s, UpdateCommands(u, data, a, o, o2));
    var s2 := Arrived(s, u, data, a, o);
    ArrivedInv(s, u, data, a, o, o2);
    StepReferences(s2, UpdateCommands(u, data, a, o, o2)[2]);
    assert s.held + multiset{a} - multiset{a} == s.held;
    SetIsStored(s2, a, o2);
    if Counters.EndsLine(data) && StoreItem(s2, a, u.comm, o2).result == Stored { StoredReads(s2, a, u.comm, o2); }
    if !Counters.EndsLine(data) { RemoveTable(s2, a); }
  }

  /** In `t` the key has what the store of item `a` in state `s2` makes of it, and a lookup says so. */
  predicate Readable(s: State, t: State, s2: State, u: Update, a: Addr)
    requires a in s2.items
  {
    var e, g := NewExpiry(s2, a, u.comm), GetItem(t, u.key);
    && Has(t, u.key, NewData(s2, a, u.comm), e)
    && (g.found.Some? <==> (s.oldestLive == 0 || s.oldestLive != s.now) && (e == 0 || e > s.now))
    && (g.found.Some? ==> g.found == Some(t.table[u.key]))
  }

  lemma ArrivedInv(s: State, u: Update, data: Bytes, a: Addr, o: Allocation, o2: Allocation)
    requires Inv(s) && RunOk(s, UpdateCommands(u, data, a, o, o2))
    ensures Inv(Arrived(s, u, data, a, o))
  {
    hide Inv, BeginStep, SetData, StoreItem, RemoveItem, GetItem, AllocationOk, StoreAllocationOk, Repair;
    var cs := UpdateCommands(u, data, a, o, o2);
    var s1 := Step(s, cs[0]);
    assert RunOk(s1, cs[1..]) && cs[1..][0] == cs[1];
    StepSound(s, cs[0]);
    StepSound(s1, cs[1]);
  }

  lemma SetIsStored(s: State, a: Addr, o: Allocation)
    requires a in s.items
    ensures StoreItem(s, a, Set, o).result == Stored && NewData(s, a, Set) == s.items[a].data
  {
    hide GetItem, LinkOver;
  }

  /** The next bytes of the stream are recognised as an accepted line and its data block. */
  lemma UpdateRecognised(env: ProcessCommand.Env, k: nat, line: Bytes, data: Bytes, rest: Bytes)
    requires line != [] && forall i :: 0 <= i < |line| ==> line[i] != Request.NL
    requires ProcessCommand.LineOutcome(env, k, line).Accept?
    requires |data| == ProcessCommand.LineOutcome(env, k, line).vlen + 2
    ensures var d := ProcessCommand.ServerDecide(env);
      Request.Run(d, Request.Line, k, line + [Request.CR, Request.NL] + (data + rest)) ==
        Request.Prepend([Request.Command(line), Request.Stored(data)], Request.Run(d, Request.Line, k + 1, rest))
  {
    hide ProcessCommand.LineOutcome, Request.Run, Request.LineOf, Request.FindNl, Request.Prepend;
    ProcessCommand.LineAhead(line, data + rest);
    Request.StoredBlock(ProcessCommand.ServerDecide(env), k, line + [Request.CR, Request.NL] + (data + rest));
    assert (data + rest)[..|data|] == data && (data + rest)[|data|..] == rest;
  }

  /** From the bytes of `set key flags exptime length` and its data block to the cache: they are recognised as that line
      and that block, and when the commands they stand for have been carried out the key has exactly the block. */
  lemma SetRequest(env: ProcessCommand.Env, k: nat, line: Bytes, data: Bytes, rest: Bytes, s: State, a: Addr,
                   o: Allocation, o2: Allocation)
    requires line != [] && forall i :: 0 <= i < |line| ==> line[i] != Request.NL
    requires ProcessCommand.LineOutcome(env, k, line).Accept?
    requires |data| == ProcessCommand.LineOutcome(env, k, line).vlen + 2 == |o.stale.data| && Counters.EndsLine(data)
    requires Inv(s)
    requires UpdateOf(s, line).Some? ==>
      var u := UpdateOf(s, line).value;
      && u.comm == Set && RunOk(s, UpdateCommands(u, data, a, o, o2))
      && AllocItem(s, u.key, u.exptime, o).found == Some(a)
    ensures var d := ProcessCommand.ServerDecide(env);
      Request.Run(d, Request.Line, k, line + [Request.CR, Request.NL] + (data + rest)) ==
        Request.Prepend([Request.Command(line), Request.Stored(data)], Request.Run(d, Request.Line, k + 1, rest))
    ensures UpdateOf(s, line).Some? && var u := UpdateOf(s, line).value;
      var t := Exec(s, UpdateCommands(u, data, a, o, o2));
      && u.key == Words(line)[1] && Has(t, u.key, data, u.exptime)
      && (GetItem(t, u.key).found.Some? <==>
          (s.oldestLive == 0 || s.oldestLive != s.now) && (u.exptime == 0 || u.exptime > s.now))
  {
    hide Inv, AllocItem, AllocationOk, StoreItem, RemoveItem, GetItem, Repair, Arrived, RunOk, Exec, Has, Request.Run;
    hide ProcessCommand.LineOutcome, ProcessCommand.ServerDecide;
    UpdateRecognised(env, k, line, data, rest);
    AcceptedWords(env, k, line, s);
    var u := UpdateOf(s, line).value;
    UpdateStores(s, u, data, a, o, o2);
    ExecUpdate(s, u, data, a, o, o2);
    ArrivedFacts(s, u, data, a, o);
  }
}
