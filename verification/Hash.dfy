/** The key hash, in 32-bit arithmetic: the three ways of reading the key agree, and mix loses nothing. */
module Hash {
  import opened Basics

  datatype Triple = Triple(a: bv32, b: bv32, c: bv32)

  // ----- mix

  function Rot(x: bv32, k: nat): bv32
    requires k <= 32
  {
    (x << k) ^ (x >> (32 - k))
  }

  function Plus(x: bv32, y: bv32): bv32 { x + y }
  function Minus(x: bv32, y: bv32): bv32 { x - y }
  function Xor(x: bv32, y: bv32): bv32 { x ^ y }

  /** x -= z; x ^= rot(z, k); z += y. */
  function Turn(x: bv32, y: bv32, z: bv32, k: nat): Triple
    requires k <= 32
  {
    Triple(Xor(Minus(x, z), Rot(z, k)), y, Plus(z, y))
  }

  function UnTurn(x: bv32, y: bv32, z: bv32, k: nat): Triple
    requires k <= 32
  {
    var z0 := Minus(z, y);
    Triple(Plus(Xor(x, Rot(z0, k)), z0), y, z0)
  }

  lemma TurnBack(x: bv32, y: bv32, z: bv32, k: nat)
    requires k <= 32
    ensures var t := Turn(x, y, z, k); UnTurn(t.a, t.b, t.c, k) == Triple(x, y, z)
    ensures var t := UnTurn(x, y, z, k); Turn(t.a, t.b, t.c, k) == Triple(x, y, z)
  {
    hide Rot, Plus, Minus, Xor;
    var z0 := Minus(z, y);
    AddBack(z, y);
    XorBack(Minus(x, z), Rot(z, k));
    AddBack(x, z);
    XorBack(x, Rot(z0, k));
    AddBack(Xor(x, Rot(z0, k)), z0);
  }

  lemma AddBack(x: bv32, y: bv32)
    ensures Plus(Minus(x, y), y) == x && Minus(Plus(x, y), y) == x
  {
    hide Plus, Minus;
    PlusAfter(x, y);
    MinusAfter(x, y);
  }

  lemma PlusAfter(x: bv32, y: bv32)
    ensures Plus(Minus(x, y), y) == x
  {
    hide Plus;
    PlusRaw(x, y);
  }

  lemma PlusRaw(x: bv32, y: bv32)
    ensures Plus(x - y, y) == x
  {}

  lemma MinusAfter(x: bv32, y: bv32)
    ensures Minus(Plus(x, y), y) == x
  {
    hide Minus;
    MinusRaw(x, y);
  }

  lemma MinusRaw(x: bv32, y: bv32)
    ensures Minus(x + y, y) == x
  {}

  lemma XorBack(x: bv32, y: bv32)
    ensures Xor(Xor(x, y), y) == x
  {}

  // The three variables take turns; each line of mix is two steps of this kind.
  function StepA(t: Triple, k: nat): Triple
    requires k <= 32
  {
    Turn(t.a, t.b, t.c, k)
  }

  function StepB(t: Triple, k: nat): Triple
    requires k <= 32
  {
    var r := Turn(t.b, t.c, t.a, k);
    Triple(r.c, r.a, r.b)
  }

  function StepC(t: Triple, k: nat): Triple
    requires k <= 32
  {
    var r := Turn(t.c, t.a, t.b, k);
    Triple(r.b, r.c, r.a)
  }

  function UnStepA(t: Triple, k: nat): Triple
    requires k <= 32
  {
    UnTurn(t.a, t.b, t.c, k)
  }

  function UnStepB(t: Triple, k: nat): Triple
    requires k <= 32
  {
    var r := UnTurn(t.b, t.c, t.a, k);
    Triple(r.c, r.a, r.b)
  }

  function UnStepC(t: Triple, k: nat): Triple
    requires k <= 32
  {
    var r := UnTurn(t.c, t.a, t.b, k);
    Triple(r.b, r.c, r.a)
  }

  function Mix(t: Triple): Triple {
    StepC(StepB(StepA(StepC(StepB(StepA(t, 4), 6), 8), 16), 19), 4)
  }

  function UnMix(t: Triple): Triple {
    UnStepA(UnStepB(UnStepC(UnStepA(UnStepB(UnStepC(t, 4), 19), 16), 8), 6), 4)
  }

  lemma StepsBack(t: Triple, k: nat)
    requires k <= 32
    ensures UnStepA(StepA(t, k), k) == t && StepA(UnStepA(t, k), k) == t
    ensures UnStepB(StepB(t, k), k) == t && StepB(UnStepB(t, k), k) == t
    ensures UnStepC(StepC(t, k), k) == t && StepC(UnStepC(t, k), k) == t
  {
    hide Turn, UnTurn;
    TurnBack(t.a, t.b, t.c, k);
    TurnBack(t.b, t.c, t.a, k);
    TurnBack(t.c, t.a, t.b, k);
  }

  /** mix is a bijection. */
  lemma MixBijective(t: Triple)
    ensures UnMix(Mix(t)) == t && Mix(UnMix(t)) == t
  {
    hide StepA, StepB, StepC, UnStepA, UnStepB, UnStepC;
    var t1 := StepA(t, 4);
    var t2 := StepB(t1, 6);
    var t3 := StepC(t2, 8);
    var t4 := StepA(t3, 16);
    var t5 := StepB(t4, 19);
    StepsBack(t, 4); StepsBack(t1, 6); StepsBack(t2, 8); StepsBack(t3, 16); StepsBack(t4, 19); StepsBack(t5, 4);
    var u1 := UnStepC(t, 4);
    var u2 := UnStepB(u1, 19);
    var u3 := UnStepA(u2, 16);
    var u4 := UnStepC(u3, 8);
    var u5 := UnStepB(u4, 6);
    StepsBack(u1, 19); StepsBack(u2, 16); StepsBack(u3, 8); StepsBack(u4, 6); StepsBack(u5, 4);
  }

  /** final: the last value of c. */
  function Final(t: Triple): bv32 {
    var c1 := (t.c ^ t.b) - Rot(t.b, 14);
    var a1 := (t.a ^ c1) - Rot(c1, 11);
    var b1 := (t.b ^ a1) - Rot(a1, 25);
    var c2 := (c1 ^ b1) - Rot(b1, 16);
    var a2 := (a1 ^ c2) - Rot(c2, 4);
    var b2 := (b1 ^ a2) - Rot(a2, 14);
    (c2 ^ b2) - Rot(b2, 24)
  }

  // ----- The hash of a byte string

  function Wide(b: byte): bv32 { b as bv32 }

  /** The byte at `i`, or 0 behind the end. */
  function At(s: seq<byte>, i: nat): bv32 {
    if i < |s| then Wide(s[i]) else 0
  }

  function Up8(x: bv32): bv32 { x << 8 }
  function Up16(x: bv32): bv32 { x << 16 }
  function Up24(x: bv32): bv32 { x << 24 }

  function Join4(b0: bv32, b1: bv32, b2: bv32, b3: bv32): bv32 {
    Plus(Plus(Plus(b0, Up8(b1)), Up16(b2)), Up24(b3))
  }

  /** The little-endian number made of the four bytes from `i`, padded with zeros. */
  function Number(s: seq<byte>, i: nat): bv32 {
    Join4(At(s, i), At(s, i + 1), At(s, i + 2), At(s, i + 3))
  }

  /** The next twelve bytes, or as many as there are, added to the state. */
  function Added(s: seq<byte>, t: Triple): Triple {
    Triple(Plus(t.a, Number(s, 0)), Plus(t.b, Number(s, 4)), Plus(t.c, Number(s, 8)))
  }

  function Rest(s: seq<byte>, t: Triple): bv32
    decreases |s|
  {
    if |s| > 12 then Rest(s[12..], Mix(Added(s, t)))
    else if |s| == 0 then t.c
    else Final(Added(s, t))
  }

  function Seed(length: nat, initval: bv32): Triple {
    var x: bv32 := 0xdeadbeef + (length % 0x1_0000_0000) as bv32 + initval;
    Triple(x, x, x)
  }

  /** What the hash depends on: the bytes of the key, their number, and the initial value. */
  function KeyHash(key: seq<byte>, initval: bv32): bv32 {
    Rest(key, Seed(|key|, initval))
  }

  // ----- Three ways to add up to four bytes of the key to a variable

  /** How many of the four bytes from `i` belong to a key of `length` bytes. */
  function Left(length: nat, i: nat): nat {
    if length <= i then 0 else if length - i < 4 then length - i else 4
  }

  /** By a 32-bit load, with what lies behind the key masked off. */
  function Load32(mem: seq<byte>, i: nat): bv32
    requires i + 4 <= |mem|
  {
    Or4(Wide(mem[i]), Wide(mem[i + 1]), Wide(mem[i + 2]), Wide(mem[i + 3]))
  }

  function Or(x: bv32, y: bv32): bv32 { x | y }

  function Or4(b0: bv32, b1: bv32, b2: bv32, b3: bv32): bv32 {
    Or(Or(Or(b0, Up8(b1)), Up16(b2)), Up24(b3))
  }

  function Low24(x: bv32): bv32 { x & 0xffffff }
  function Low16(x: bv32): bv32 { x & 0xffff }
  function Low8(x: bv32): bv32 { x & 0xff }

  function Tail32(x: bv32, mem: seq<byte>, i: nat, n: nat): bv32
    requires n > 0 ==> i + 4 <= |mem|
  {
    if n >= 4 then Plus(x, Load32(mem, i))
    else if n == 3 then Plus(x, Low24(Load32(mem, i)))
    else if n == 2 then Plus(x, Low16(Load32(mem, i)))
    else if n == 1 then Plus(x, Low8(Load32(mem, i)))
    else x
  }

  /** By 16-bit loads, and a byte load for an odd byte. */
  function Load16(mem: seq<byte>, i: nat): bv32
    requires i + 2 <= |mem|
  {
    Or2(mem[i], mem[i + 1])
  }

  function Or2(b0: byte, b1: byte): bv32 {
    ((b0 as bv16) | ((b1 as bv16) << 8)) as bv32
  }

  function Tail16(x: bv32, mem: seq<byte>, i: nat, n: nat): bv32
    requires n > 0 ==> i + n <= |mem|
  {
    if n >= 4 then Plus(x, Plus(Load16(mem, i), Up16(Load16(mem, i + 2))))
    else if n == 3 then Plus(Plus(x, Up16(Wide(mem[i + 2]))), Load16(mem, i))
    else if n == 2 then Plus(x, Load16(mem, i))
    else if n == 1 then Plus(x, Wide(mem[i]))
    else x
  }

  /** Byte by byte: upwards in a full block, downwards in the last one. */
  function Full8(x: bv32, mem: seq<byte>, i: nat): bv32
    requires i + 4 <= |mem|
  {
    Plus(Plus(Plus(Plus(x, Wide(mem[i])), Up8(Wide(mem[i + 1]))), Up16(Wide(mem[i + 2]))), Up24(Wide(mem[i + 3])))
  }

  function Tail8(x: bv32, mem: seq<byte>, i: nat, n: nat): bv32
    requires n > 0 ==> i + n <= |mem|
  {
    var x3 := if n >= 4 then Plus(x, Up24(Wide(mem[i + 3]))) else x;
    var x2 := if n >= 3 then Plus(x3, Up16(Wide(mem[i + 2]))) else x3;
    var x1 := if n >= 2 then Plus(x2, Up8(Wide(mem[i + 1]))) else x2;
    if n >= 1 then Plus(x1, Wide(mem[i])) else x1
  }

  // ----- They agree

  lemma PlusIs(x: bv32, y: bv32)
    ensures Plus(x, y) == x + y
  {}

  lemma AssocLeft(x: bv32, y: bv32, z: bv32)
    ensures Plus(Plus(x, y), z) == Plus(x + y, z)
  {
    hide Plus;
    PlusIs(x, y);
  }

  lemma AssocRaw(x: bv32, y: bv32, z: bv32)
    ensures Plus(x + y, z) == Plus(x, y + z)
  {}

  lemma AssocRight(x: bv32, y: bv32, z: bv32)
    ensures Plus(x, y + z) == Plus(x, Plus(y, z))
  {
    hide Plus;
    PlusIs(y, z);
  }

  lemma PlusAssoc(x: bv32, y: bv32, z: bv32)
    ensures Plus(Plus(x, y), z) == Plus(x, Plus(y, z))
  {
    hide Plus;
    AssocLeft(x, y, z);
    AssocRaw(x, y, z);
    AssocRight(x, y, z);
  }

  lemma PlusComm(x: bv32, y: bv32)
    ensures Plus(x, y) == Plus(y, x)
  {}

  lemma Zeros(x: bv32)
    ensures Plus(x, 0) == x && Up8(0) == 0 && Up16(0) == 0 && Up24(0) == 0
  {}

  lemma Or8(x: bv32, b: bv32)
    requires Low8(x) == x && Low8(b) == b
    ensures Or(x, Up8(b)) == Plus(x, Up8(b))
  {}

  lemma Fits8(x: bv32, b: bv32)
    requires Low8(x) == x && Low8(b) == b
    ensures Low16(Plus(x, Up8(b))) == Plus(x, Up8(b))
  {}

  lemma Masked8(x: bv32, b: bv32)
    requires Low8(x) == x && Low8(b) == b
    ensures Low8(Plus(x, Up8(b))) == x
  {}

  lemma Or16Form(y: bv32, c: bv32)
    ensures Or(Low16(y), Up16(Low8(c))) == Plus(Low16(y), Up16(Low8(c)))
  {}

  lemma Fits16Form(y: bv32, c: bv32)
    ensures Low24(Plus(Low16(y), Up16(Low8(c)))) == Plus(Low16(y), Up16(Low8(c)))
  {}

  lemma Or16(x: bv32, b: bv32)
    requires Low16(x) == x && Low8(b) == b
    ensures Or(x, Up16(b)) == Plus(x, Up16(b))
  {
    hide Or, Plus, Up16, Low16, Low8;
    Or16Form(x, b);
  }

  lemma Fits16(x: bv32, b: bv32)
    requires Low16(x) == x && Low8(b) == b
    ensures Low24(Plus(x, Up16(b))) == Plus(x, Up16(b))
  {
    hide Plus, Up16, Low16, Low8, Low24;
    Fits16Form(x, b);
  }

  lemma Masked16(x: bv32, b: bv32)
    requires Low16(x) == x && Low8(b) == b
    ensures Low16(Plus(x, Up16(b))) == x
  {}

  lemma Or24(x: bv32, b: bv32)
    requires Low24(x) == x && Low8(b) == b
    ensures Or(x, Up24(b)) == Plus(x, Up24(b)) && Low24(Plus(x, Up24(b))) == x
  {}

  lemma Lows(x: bv32)
    ensures Low16(Low24(x)) == Low16(x) && Low8(Low16(x)) == Low8(x)
  {}

  lemma WideByte(b: byte)
    ensures Low8(Wide(b)) == Wide(b)
  {}

  /** A word assembled by a load is the sum of its bytes, and masking drops the upper ones. */
  lemma OrJoin(b0: bv32, b1: bv32, b2: bv32, b3: bv32)
    requires Low8(b0) == b0 && Low8(b1) == b1 && Low8(b2) == b2 && Low8(b3) == b3
    ensures var w := Or4(b0, b1, b2, b3);
      && w == Join4(b0, b1, b2, b3) && Low24(w) == Join4(b0, b1, b2, 0) && Low16(w) == Join4(b0, b1, 0, 0)
      && Low8(w) == Join4(b0, 0, 0, 0)
  {
    hide Or, Plus, Up8, Up16, Up24, Low8, Low16, Low24;
    var x1 := Plus(b0, Up8(b1));
    var x2 := Plus(x1, Up16(b2));
    var w := Plus(x2, Up24(b3));
    Or8(b0, b1);
    Fits8(b0, b1);
    Masked8(b0, b1);
    Or16(x1, b2);
    Fits16(x1, b2);
    Masked16(x1, b2);
    Or24(x2, b3);
    Lows(w);
    Lows(x2);
    Zeros(x2);
    Zeros(x1);
    Zeros(b0);
  }

  lemma Or2Join(b0: byte, b1: byte)
    ensures Or2(b0, b1) == Plus(Wide(b0), Up8(Wide(b1)))
  {}

  lemma ShiftJoin(x: bv32, y: bv32)
    ensures Up16(Plus(x, Up8(y))) == Plus(Up16(x), Up24(y))
  {}

  /** Adding the parts of a number in either order. */
  lemma Sums(x: bv32, p0: bv32, p1: bv32, p2: bv32, p3: bv32)
    ensures var sum := Plus(x, Plus(Plus(Plus(p0, p1), p2), p3));
      && Plus(Plus(Plus(Plus(x, p0), p1), p2), p3) == sum
      && Plus(Plus(Plus(Plus(x, p3), p2), p1), p0) == sum
      && Plus(x, Plus(Plus(p0, p1), Plus(p2, p3))) == sum
    ensures Plus(Plus(x, p2), Plus(p0, p1)) == Plus(x, Plus(Plus(p0, p1), p2))
  {
    hide Plus;
    var q1, q2 := Plus(p0, p1), Plus(Plus(p0, p1), p2);
    PlusAssoc(x, p0, p1);
    PlusAssoc(x, q1, p2);
    PlusAssoc(x, q2, p3);
    PlusAssoc(q1, p2, p3);
    // downwards
    PlusAssoc(x, p3, p2);
    PlusComm(p3, p2);
    PlusAssoc(x, Plus(p2, p3), p1);
    PlusAssoc(x, Plus(Plus(p2, p3), p1), p0);
    PlusAssoc(Plus(p2, p3), p1, p0);
    PlusComm(p1, p0);
    PlusComm(Plus(p2, p3), q1);
    // an odd byte first
    PlusAssoc(x, p2, q1);
    PlusComm(p2, q1);
  }

  lemma Tail32Meaning(x: bv32, mem: seq<byte>, key: seq<byte>, i: nat)
    requires key <= mem && (i < |key| ==> i + 4 <= |mem|)
    ensures Tail32(x, mem, i, Left(|key|, i)) == Plus(x, Number(key, i))
  {
    hide Wide, Or, Plus, Up8, Up16, Up24, Low8, Low16, Low24;
    Zeros(x);
    Zeros(0);
    if i < |key| {
      var b0, b1, b2, b3 := mem[i], mem[i + 1], mem[i + 2], mem[i + 3];
      WideByte(b0);
      WideByte(b1);
      WideByte(b2);
      WideByte(b3);
      OrJoin(Wide(b0), Wide(b1), Wide(b2), Wide(b3));
    }
  }

  lemma Tail16Meaning(x: bv32, mem: seq<byte>, key: seq<byte>, i: nat)
    requires key <= mem
    ensures Tail16(x, mem, i, Left(|key|, i)) == Plus(x, Number(key, i))
  {
    hide Wide, Or2, Plus, Up8, Up16, Up24;
    Zeros(x);
    Zeros(0);
    var b0, b1, b2, b3 := At(key, i), At(key, i + 1), At(key, i + 2), At(key, i + 3);
    var n := Left(|key|, i);
    Zeros(b0);
    Zeros(Plus(b0, Up8(b1)));
    Zeros(Plus(Plus(b0, Up8(b1)), Up16(b2)));
    Sums(x, b0, Up8(b1), Up16(b2), Up24(b3));
    if n >= 2 { Or2Join(mem[i], mem[i + 1]); }
    if n >= 4 {
      Or2Join(mem[i + 2], mem[i + 3]);
      ShiftJoin(b2, b3);
    }
  }

  lemma Tail8Meaning(x: bv32, mem: seq<byte>, key: seq<byte>, i: nat)
    requires key <= mem
    ensures Tail8(x, mem, i, Left(|key|, i)) == Plus(x, Number(key, i))
    ensures i + 4 <= |key| ==> Full8(x, mem, i) == Plus(x, Number(key, i))
  {
    hide Wide, Plus, Up8, Up16, Up24;
    Zeros(x);
    Zeros(0);
    var b0, b1, b2, b3 := At(key, i), At(key, i + 1), At(key, i + 2), At(key, i + 3);
    Sums(x, b0, Up8(b1), Up16(b2), Up24(b3));
    Zeros(Plus(x, Up24(b3)));
    Zeros(Plus(Plus(x, Up24(b3)), Up16(b2)));
    Zeros(Plus(Plus(Plus(x, Up24(b3)), Up16(b2)), Up8(b1)));
  }

  // ----- hash

  lemma NumberShift(s: seq<byte>, i: nat, j: nat)
    requires i <= |s|
    ensures Number(s[i..], j) == Number(s, i + j)
  {
    assert forall k: nat :: At(s[i..], k) == At(s, i + k);
  }

  lemma BlockStep(key: seq<byte>, i: nat, t: Triple)
    requires i + 12 < |key|
    ensures Rest(key[i..], t) ==
      Rest(key[i + 12..],
        Mix(Triple(Plus(t.a, Number(key, i)), Plus(t.b, Number(key, i + 4)), Plus(t.c, Number(key, i + 8)))))
    ensures Left(|key|, i) == Left(|key|, i + 4) == Left(|key|, i + 8) == 4
  {
    hide Mix, Number, Final, Plus;
    NumberShift(key, i, 0);
    NumberShift(key, i, 4);
    NumberShift(key, i, 8);
    assert key[i..][12..] == key[i + 12..];
  }

  lemma LastStep(key: seq<byte>, i: nat, t: Triple)
    requires i <= |key| <= i + 12
    ensures Rest(key[i..], t) == if i == |key| then t.c
      else Final(Triple(Plus(t.a, Number(key, i)), Plus(t.b, Number(key, i + 4)), Plus(t.c, Number(key, i + 8))))
  {
    hide Mix, Number, Final, Plus;
    NumberShift(key, i, 0);
    NumberShift(key, i, 4);
    NumberShift(key, i, 8);
  }

  lemma LeftBounds(length: nat, i: nat)
    ensures forall j: nat :: Left(length, j) > 0 ==> j < length && j + Left(length, j) <= length
  {}

  /** The 32-bit form, for a key in aligned memory: its loads may reach past the key, but not past its last word. */
  method HashWords(mem: seq<byte>, length: nat, initval: bv32) returns (h: bv32)
    requires length <= |mem| && |mem| % 4 == 0
    ensures h == KeyHash(mem[..length], initval)
  {
    hide Rest, Tail32, Left, Mix, Final, Seed, Number;
    ghost var key := mem[..length];
    var t, i := Seed(length, initval), 0;
    assert key[0..] == key;
    while length - i > 12
      invariant i % 4 == 0 && i <= length && Rest(key[i..], t) == KeyHash(key, initval)
    {
      BlockStep(key, i, t);
      Tail32Meaning(t.a, mem, key, i);
      Tail32Meaning(t.b, mem, key, i + 4);
      Tail32Meaning(t.c, mem, key, i + 8);
      t := Mix(Triple(Tail32(t.a, mem, i, 4), Tail32(t.b, mem, i + 4, 4), Tail32(t.c, mem, i + 8, 4)));
      i := i + 12;
    }
    LastStep(key, i, t);
    if length == i {
      return t.c;
    }
    Tail32Meaning(t.a, mem, key, i);
    Tail32Meaning(t.b, mem, key, i + 4);
    Tail32Meaning(t.c, mem, key, i + 8);
    LeftBounds(length, i);
    t := Triple(Tail32(t.a, mem, i, Left(length, i)), Tail32(t.b, mem, i + 4, Left(length, i + 4)),
      Tail32(t.c, mem, i + 8, Left(length, i + 8)));
    h := Final(t);
  }

  /** The 16-bit form. */
  method HashHalves(mem: seq<byte>, length: nat, initval: bv32) returns (h: bv32)
    requires length <= |mem|
    ensures h == KeyHash(mem[..length], initval)
  {
    hide Rest, Tail16, Left, Mix, Final, Seed, Number;
    ghost var key := mem[..length];
    var t, i := Seed(length, initval), 0;
    assert key[0..] == key;
    while length - i > 12
      invariant i % 4 == 0 && i <= length && Rest(key[i..], t) == KeyHash(key, initval)
    {
      BlockStep(key, i, t);
      Tail16Meaning(t.a, mem, key, i);
      Tail16Meaning(t.b, mem, key, i + 4);
      Tail16Meaning(t.c, mem, key, i + 8);
      t := Mix(Triple(Tail16(t.a, mem, i, 4), Tail16(t.b, mem, i + 4, 4), Tail16(t.c, mem, i + 8, 4)));
      i := i + 12;
    }
    LastStep(key, i, t);
    if length == i {
      return t.c;
    }
    Tail16Meaning(t.a, mem, key, i);
    Tail16Meaning(t.b, mem, key, i + 4);
    Tail16Meaning(t.c, mem, key, i + 8);
    LeftBounds(length, i);
    t := Triple(Tail16(t.a, mem, i, Left(length, i)), Tail16(t.b, mem, i + 4, Left(length, i + 4)),
      Tail16(t.c, mem, i + 8, Left(length, i + 8)));
    h := Final(t);
  }

  /** The form that reads single bytes. */
  method HashBytes(mem: seq<byte>, length: nat, initval: bv32) returns (h: bv32)
    requires length <= |mem|
    ensures h == KeyHash(mem[..length], initval)
  {
    hide Rest, Tail8, Full8, Left, Mix, Final, Seed, Number;
    ghost var key := mem[..length];
    var t, i := Seed(length, initval), 0;
    assert key[0..] == key;
    while length - i > 12
      invariant i % 4 == 0 && i <= length && Rest(key[i..], t) == KeyHash(key, initval)
    {
      BlockStep(key, i, t);
      Tail8Meaning(t.a, mem, key, i);
      Tail8Meaning(t.b, mem, key, i + 4);
      Tail8Meaning(t.c, mem, key, i + 8);
      t := Mix(Triple(Full8(t.a, mem, i), Full8(t.b, mem, i + 4), Full8(t.c, mem, i + 8)));
      i := i + 12;
    }
    LastStep(key, i, t);
    if length == i {
      return t.c;
    }
    Tail8Meaning(t.a, mem, key, i);
    Tail8Meaning(t.b, mem, key, i + 4);
    Tail8Meaning(t.c, mem, key, i + 8);
    LeftBounds(length, i);
    t := Triple(Tail8(t.a, mem, i, Left(length, i)), Tail8(t.b, mem, i + 4, Left(length, i + 4)),
      Tail8(t.c, mem, i + 8, Left(length, i + 8)));
    h := Final(t);
  }
}
