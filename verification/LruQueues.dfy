/** The LRU lists of items.c: one doubly linked list per slab class, threaded through the items. */
module LruQueues {
  import opened CacheSpec
  import opened CacheInvariant
  import opened Assoc

  function Predecessor(q: seq<Addr>, i: nat): Addr {
    if 0 < i <= |q| then q[i - 1] else NULL
  }

  /** `q` is what the next fields list from `head` and the prev fields list back from `tail`. */
  ghost predicate IsList(next: map<Addr, Addr>, prev: map<Addr, Addr>, head: Addr, tail: Addr, q: seq<Addr>) {
    && head == (if |q| == 0 then NULL else q[0])
    && tail == (if |q| == 0 then NULL else q[|q| - 1])
    && (forall i :: 0 <= i < |q| ==> q[i] != NULL && q[i] in next && q[i] in prev)
    && (forall i :: 0 <= i < |q| ==> next[q[i]] == Successor(q, i))
    && (forall i :: 0 <= i < |q| ==> prev[q[i]] == Predecessor(q, i))
  }

  /** The pointer writes of item_link_q. */
  lemma ListPush(next: map<Addr, Addr>, prev: map<Addr, Addr>, head: Addr, tail: Addr, q: seq<Addr>, a: Addr,
                 next': map<Addr, Addr>, prev': map<Addr, Addr>)
    requires IsList(next, prev, head, tail, q) && Distinct(q) && a != NULL && a !in q
    requires next' == next[a := head] && prev' == if head != NULL then prev[a := NULL][head := a] else prev[a := NULL]
    ensures IsList(next', prev', a, if tail == NULL then a else tail, [a] + q) && Distinct([a] + q)
  {
    hide Distinct, Successor, Predecessor;
    var d := [a] + q;
    PushDistinct(q, a);
    forall i | 0 <= i < |d|
      ensures d[i] != NULL && d[i] in next' && d[i] in prev'
      ensures next'[d[i]] == Successor(d, i) && prev'[d[i]] == Predecessor(d, i)
    {
      PushNeighbours(q, a, i);
      if i > 0 { assert d[i] == q[i - 1] && d[i] != a; }
    }
  }

  /** The neighbours in a list with one more element in front. */
  lemma PushNeighbours(q: seq<Addr>, a: Addr, i: nat)
    requires Distinct(q) && i <= |q|
    ensures Successor([a] + q, i) == if i > 0 then Successor(q, i - 1) else if |q| == 0 then NULL else q[0]
    ensures Predecessor([a] + q, i) == if i == 0 then NULL else if i == 1 then a else Predecessor(q, i - 1)
    ensures i > 1 ==> q[i - 1] != q[0]
  {}

  /** The element before the i-th one once the k-th is gone. */
  lemma RemovedPredecessor(q: seq<Addr>, k: nat, i: nat)
    requires k < |q| && i < |q| - 1
    ensures var d := q[..k] + q[k + 1..];
      && d[i] == q[if i < k then i else i + 1]
      && Predecessor(d, i) == if i == k then Predecessor(q, k) else Predecessor(q, if i < k then i else i + 1)
  {}

  lemma RemoveNext(next: map<Addr, Addr>, q: seq<Addr>, k: nat, next': map<Addr, Addr>, i: nat)
    requires Distinct(q) && k < |q| && i < |q| - 1
    requires forall j :: 0 <= j < |q| ==> q[j] in next && next[q[j]] == Successor(q, j)
    requires next' == if k > 0 then next[q[k - 1] := Successor(q, k)] else next
    ensures var d := q[..k] + q[k + 1..]; d[i] in next' && next'[d[i]] == Successor(d, i)
  {
    hide Successor;
    RemovedSuccessor(q, k, i);
    var j := if i < k then i else i + 1;
    assert (q[..k] + q[k + 1..])[i] == q[j] && next[q[j]] == Successor(q, j);
    assert k > 0 && j != k - 1 ==> q[j] != q[k - 1];
  }

  lemma RemovePrev(prev: map<Addr, Addr>, q: seq<Addr>, k: nat, prev': map<Addr, Addr>, i: nat)
    requires Distinct(q) && k < |q| && i < |q| - 1
    requires forall j :: 0 <= j < |q| ==> q[j] in prev && prev[q[j]] == Predecessor(q, j)
    requires prev' == if k + 1 < |q| then prev[q[k + 1] := Predecessor(q, k)] else prev
    ensures var d := q[..k] + q[k + 1..]; d[i] in prev' && prev'[d[i]] == Predecessor(d, i)
  {
    RemovedPredecessor(q, k, i);
    var j := if i < k then i else i + 1;
    assert prev[q[j]] == Predecessor(q, j);
    assert k + 1 < |q| && j != k + 1 ==> q[j] != q[k + 1];
  }

  /** The pointer writes of item_unlink_q at position `k`. */
  lemma ListRemove(next: map<Addr, Addr>, prev: map<Addr, Addr>, head: Addr, tail: Addr, q: seq<Addr>, k: nat,
                   next': map<Addr, Addr>, prev': map<Addr, Addr>)
    requires IsList(next, prev, head, tail, q) && Distinct(q) && k < |q|
    requires prev' == if k + 1 < |q| then prev[q[k + 1] := Predecessor(q, k)] else prev
    requires next' == if k > 0 then next[q[k - 1] := Successor(q, k)] else next
    ensures IsList(next', prev', if k == 0 then Successor(q, k) else head,
                   if k + 1 == |q| then Predecessor(q, k) else tail, q[..k] + q[k + 1..])
  {
    hide Distinct, Successor, Predecessor;
    RemovedEnds(q, k);
    var d := q[..k] + q[k + 1..];
    forall i | 0 <= i < |d|
      ensures d[i] != NULL && d[i] in next' && d[i] in prev' && next'[d[i]] == Successor(d, i)
      ensures prev'[d[i]] == Predecessor(d, i)
    {
      assert d[i] == q[if i < k then i else i + 1];
      RemoveNext(next, q, k, next', i);
      RemovePrev(prev, q, k, prev', i);
    }
  }

  lemma RemovedEnds(q: seq<Addr>, k: nat)
    requires k < |q|
    ensures var d := q[..k] + q[k + 1..];
      && (if k == 0 then Successor(q, k) else q[0]) == (if |d| == 0 then NULL else d[0])
      && (if k + 1 == |q| then Predecessor(q, k) else q[|q| - 1]) == (if |d| == 0 then NULL else d[|d| - 1])
  {}

  /** List `c` holds the items `q`, all of which `where` places there. */
  ghost predicate ListOk(next: map<Addr, Addr>, prev: map<Addr, Addr>, where: map<Addr, nat>,
                         head: Addr, tail: Addr, size: nat, q: seq<Addr>, c: nat) {
    && IsList(next, prev, head, tail, q) && Distinct(q) && size == |q|
    && forall i :: 0 <= i < |q| ==> q[i] in where && where[q[i]] == c
  }

  lemma ListOkFrame(next: map<Addr, Addr>, prev: map<Addr, Addr>, where: map<Addr, nat>,
                    next': map<Addr, Addr>, prev': map<Addr, Addr>, where': map<Addr, nat>,
                    head: Addr, tail: Addr, size: nat, q: seq<Addr>, c: nat)
    requires ListOk(next, prev, where, head, tail, size, q, c)
    requires forall a :: a in where && where[a] == c && a in next && a in prev ==>
      a in where' && where'[a] == c && a in next' && a in prev' && next'[a] == next[a] && prev'[a] == prev[a]
    ensures ListOk(next', prev', where', head, tail, size, q, c)
  {}

  lemma LinkedOk(next: map<Addr, Addr>, prev: map<Addr, Addr>, where: map<Addr, nat>, head: Addr, tail: Addr, size: nat,
               q: seq<Addr>, c: nat, a: Addr, next': map<Addr, Addr>, prev': map<Addr, Addr>)
    requires ListOk(next, prev, where, head, tail, size, q, c) && a != NULL && a !in where
    requires next' == next[a := head] && prev' == if head != NULL then prev[a := NULL][head := a] else prev[a := NULL]
    ensures ListOk(next', prev', where[a := c], a, if tail == NULL then a else tail, size + 1, [a] + q, c)
    ensures head != NULL ==> head in where && where[head] == c
  {
    hide IsList, Distinct;
    ListPush(next, prev, head, tail, q, a, next', prev');
    forall i | 0 <= i < |q| + 1 ensures ([a] + q)[i] in where[a := c] && where[a := c][([a] + q)[i]] == c {
      if i > 0 { assert ([a] + q)[i] == q[i - 1]; }
    }
    HeadInList(next, prev, head, tail, q);
  }

  lemma HeadInList(next: map<Addr, Addr>, prev: map<Addr, Addr>, head: Addr, tail: Addr, q: seq<Addr>)
    requires IsList(next, prev, head, tail, q)
    ensures head != NULL ==> |q| > 0 && q[0] == head
  {}

  /** What item_unlink_q finds around the item it removes. */
  lemma Neighbours(next: map<Addr, Addr>, prev: map<Addr, Addr>, where: map<Addr, nat>, head: Addr, tail: Addr,
                   size: nat,
                   q: seq<Addr>, c: nat, a: Addr, k: nat)
    requires ListOk(next, prev, where, head, tail, size, q, c) && k < |q| && q[k] == a
    ensures a in next && a in prev && next[a] == Successor(q, k) && prev[a] == Predecessor(q, k) && size > 0
    ensures (head == a <==> k == 0) && (tail == a <==> k + 1 == |q|)
    ensures (next[a] != NULL <==> k + 1 < |q|) && (prev[a] != NULL <==> k > 0)
    ensures next[a] != NULL ==> next[a] in where && where[next[a]] == c
    ensures prev[a] != NULL ==> prev[a] in where && where[prev[a]] == c
    ensures a in where && where[a] == c
  {}

  lemma UnlinkedOk(next: map<Addr, Addr>, prev: map<Addr, Addr>, where: map<Addr, nat>, head: Addr, tail: Addr,
                   size: nat,
                 q: seq<Addr>, c: nat, a: Addr, k: nat, next': map<Addr, Addr>, prev': map<Addr, Addr>)
    requires ListOk(next, prev, where, head, tail, size, q, c) && k < |q| && q[k] == a && size > 0
    requires prev' == if k + 1 < |q| then prev[q[k + 1] := Predecessor(q, k)] else prev
    requires next' == if k > 0 then next[q[k - 1] := Successor(q, k)] else next
    ensures Without(q, a) == q[..k] + q[k + 1..]
    ensures ListOk(next', prev', where - {a}, if k == 0 then Successor(q, k) else head,
                   if k + 1 == |q| then Predecessor(q, k) else tail, size - 1, Without(q, a), c)
  {
    hide IsList, Without, Successor, Predecessor;
    WithoutAt(q, a, k);
    ListRemove(next, prev, head, tail, q, k, next', prev');
    RemovedDistinct(q, k);
    var d := q[..k] + q[k + 1..];
    forall i | 0 <= i < |d| ensures d[i] in where - {a} && (where - {a})[d[i]] == c {
      assert d[i] == q[if i < k then i else i + 1] && d[i] != a;
    }
  }

  class LruLists {
    var next: map<Addr, Addr>
    var prev: map<Addr, Addr>
    var heads: seq<Addr>
    var tails: seq<Addr>
    var sizes: seq<nat>
    /** The lists, and the list each item is on. */
    ghost var lists: seq<seq<Addr>>
    ghost var where: map<Addr, nat>

    ghost predicate Sized()
      reads this
    {
      |heads| == |tails| == |sizes| == |lists| == LARGEST_ID
    }

    ghost predicate Valid()
      reads this
    {
      && Sized()
      && forall c :: 0 <= c < LARGEST_ID ==> ListOk(next, prev, where, heads[c], tails[c], sizes[c], lists[c], c)
    }

    /** item_init. */
    constructor ()
      ensures Valid() && lists == seq(LARGEST_ID, _ => []) && where == map[]
    {
      next, prev := map[], map[];
      heads := seq(LARGEST_ID, _ => NULL);
      tails := seq(LARGEST_ID, _ => NULL);
      sizes := seq(LARGEST_ID, _ => 0);
      lists := seq(LARGEST_ID, _ => []);
      where := map[];
    }

    /** item_link_q: the item becomes the head of its list. */
    method LinkQ(it: Addr, c: nat)
      requires Valid() && c < LARGEST_ID && it != NULL && it !in where
      modifies this
      ensures Valid() && lists == old(lists)[c := [it] + old(lists)[c]] && where == old(where)[it := c]
    {
      hide ListOk;
      ghost var n, p, w := next, prev, where;
      var head := heads[c];
      assert ListOk(n, p, w, head, tails[c], sizes[c], lists[c], c);
      prev := prev[it := NULL];
      next := next[it := head];
      if head != NULL { prev := prev[head := it]; }
      LinkedOk(n, p, w, head, tails[c], sizes[c], lists[c], c, it, next, prev);
      heads := heads[c := it];
      if tails[c] == NULL { tails := tails[c := it]; }
      sizes := sizes[c := sizes[c] + 1];
      lists := lists[c := [it] + lists[c]];
      where := where[it := c];
      forall d | 0 <= d < LARGEST_ID && d != c
        ensures ListOk(next, prev, where, heads[d], tails[d], sizes[d], lists[d], d)
      {
        assert ListOk(n, p, w, heads[d], tails[d], sizes[d], lists[d], d);
        ListOkFrame(n, p, w, next, prev, where, heads[d], tails[d], sizes[d], lists[d], d);
      }
    }

    /** item_unlink_q. */
    method UnlinkQ(it: Addr, c: nat)
      requires Valid() && c < LARGEST_ID && it in lists[c]
      modifies this
      ensures Valid() && lists == old(lists)[c := Without(old(lists)[c], it)] && where == old(where) - {it}
    {
      hide ListOk, Without;
      ghost var n, p, w := next, prev, where;
      assert ListOk(n, p, w, heads[c], tails[c], sizes[c], lists[c], c);
      ghost var k :| 0 <= k < |lists[c]| && lists[c][k] == it;
      Neighbours(n, p, w, heads[c], tails[c], sizes[c], lists[c], c, it, k);
      ghost var h, t, q, m := heads[c], tails[c], lists[c], sizes[c];
      if heads[c] == it { heads := heads[c := next[it]]; }
      if tails[c] == it { tails := tails[c := prev[it]]; }
      if next[it] != NULL { prev := prev[next[it] := prev[it]]; }
      if prev[it] != NULL { next := next[prev[it] := next[it]]; }
      UnlinkedOk(n, p, w, h, t, m, q, c, it, k, next, prev);
      sizes := sizes[c := sizes[c] - 1];
      lists := lists[c := Without(lists[c], it)];
      where := where - {it};
      forall d | 0 <= d < LARGEST_ID && d != c
        ensures ListOk(next, prev, where, heads[d], tails[d], sizes[d], lists[d], d)
      {
        assert ListOk(n, p, w, heads[d], tails[d], sizes[d], lists[d], d);
        ListOkFrame(n, p, w, next, prev, where, heads[d], tails[d], sizes[d], lists[d], d);
      }
    }

    lemma Bounds()
      requires Valid()
      ensures |heads| == |tails| == |sizes| == |lists| == LARGEST_ID
    {}

    /** Walking a list from its tail through the prev fields. */
    lemma Walk(c: nat, n: nat)
      requires Valid() && c < LARGEST_ID && n <= |lists[c]|
      ensures n == |lists[c]| ==> tails[c] == Predecessor(lists[c], n)
      ensures n > 0 ==>
        lists[c][n - 1] != NULL && lists[c][n - 1] in prev && prev[lists[c][n - 1]] == Predecessor(lists[c], n - 1)
    {
      assert ListOk(next, prev, where, heads[c], tails[c], sizes[c], lists[c], c);
    }

    lemma TailEmpty(c: nat)
      requires Valid() && c < LARGEST_ID
      ensures lists[c] == [] <==> tails[c] == NULL
    {
      assert ListOk(next, prev, where, heads[c], tails[c], sizes[c], lists[c], c);
    }

    /** The head of a list and the item after it. */
    lemma Front(c: nat)
      requires Valid() && c < LARGEST_ID
      ensures lists[c] == [] <==> heads[c] == NULL
      ensures lists[c] != [] ==> heads[c] == lists[c][0] && heads[c] in next && next[heads[c]] == Successor(lists[c], 0)
    {
      assert ListOk(next, prev, where, heads[c], tails[c], sizes[c], lists[c], c);
    }
  }
}
