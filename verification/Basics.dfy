/** What several modules use. */
module Basics {
  datatype Option<+T> = None | Some(value: T)

  /** unsigned char, as the network and the hash function handle it. */
  type byte = bv8

  /** What fits a C int, and the conversion to one. */
  const INT_MAX: nat := 0x7fff_ffff

  function Int32(x: int): int {
    var m := x % 0x1_0000_0000;
    if m < 0x8000_0000 then m else m - 0x1_0000_0000
  }

  function Least(a: int, b: int): int {
    if a < b then a else b
  }

  lemma Cancel(x: real, y: real, d: real)
    requires d > 0.0
    ensures (x * d <= y * d ==> x <= y) && (x * d == y * d ==> x == y)
  {}

  function Cut<T>(s: seq<T>, k: nat): seq<T>
    requires k < |s|
  {
    s[..k] + s[k + 1..]
  }

  /** The last element of one list, found and cut out of another order of the same elements. */
  lemma TakeLast<T>(s: seq<T>, t: seq<T>) returns (k: nat)
    requires multiset(s) == multiset(t) && t != []
    ensures k < |s| && s[k] == t[|t| - 1] && multiset(Cut(s, k)) == multiset(t[..|t| - 1])
  {
    var n := |t| - 1;
    assert t[n] in multiset(s);
    k :| 0 <= k < |s| && s[k] == t[n];
    assert s == s[..k] + [s[k]] + s[k + 1..];
    assert t == t[..n] + [t[n]];
    calc {
      multiset(Cut(s, k));
      multiset(s[..k]) + multiset(s[k + 1..]);
      multiset(s) - multiset{s[k]};
      multiset(t[..n]) + multiset{t[n]} - multiset{t[n]};
      multiset(t[..n]);
    }
  }
}
