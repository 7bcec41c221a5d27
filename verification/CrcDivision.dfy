/** The reference definition of the CRC: the remainder of a long division of polynomials over
    two elements, bit by bit, as section 3.2.9 of IEEE 802.3 states it. A polynomial is the
    sequence of its coefficients, highest power first. */
module CrcDivision {
  import opened Types
  import opened Crc32
  import CrcFrames

  type Polynomial = seq<bool>

  /** Which powers of x occur in the generator. */
  predicate InGenerator(power: nat) {
    || power == 32 || power == 26 || power == 23 || power == 22 || power == 16
    || power == 12 || power == 11 || power == 10 || power == 8 || power == 7
    || power == 5 || power == 4 || power == 2 || power == 1 || power == 0
  }

  function Generator(): (g: Polynomial)
    ensures |g| == 33
  {
    seq(33, i requires 0 <= i < 33 => InGenerator(32 - i))
  }

  /** 32 equal coefficients. */
  function All32(b: bool): (p: Polynomial)
    ensures |p| == 32
  {
    seq(32, _ => b)
  }

  /** `m` with its leading coefficients changed by `p`. */
  function AddToHead(m: Polynomial, p: Polynomial): (r: Polynomial)
    requires |p| <= |m|
    ensures |r| == |m|
  {
    seq(|m|, i requires 0 <= i < |m| => if i < |p| then m[i] != p[i] else m[i])
  }

  /** Long division by the generator: what is left when 32 coefficients remain. */
  function Remainder(m: Polynomial): (r: Polynomial)
    requires |m| >= 32
    ensures |r| == 32
    decreases |m|
  {
    if |m| == 32 then m
    else if m[0] then Remainder(AddToHead(m, Generator())[1..])
    else Remainder(m[1..])
  }

  function Unroll<T>(first: T -> bool, next: T -> T, y: T, n: nat): (r: seq<bool>)
    ensures |r| == n
    decreases n
  {
    if n == 0 then [] else [first(y)] + Unroll(first, next, next(y), n - 1)
  }

  predicate Odd(y: bv32) { y & 1 == 1 }

  function Half(y: bv32): bv32 { y >> 1 }

  /** The low `n` bits of a word, least significant first. */
  function Bits(y: bv32, n: nat): (r: Polynomial)
    ensures |r| == n
  {
    Unroll(Odd, Half, y, n)
  }

  /** The bits of a message in the order in which they are transmitted. */
  function MessageBits(data: Bytes): Polynomial {
    if data == [] then []
    else MessageBits(data[..|data| - 1]) + Bits(data[|data| - 1] as bv32, 8)
  }

  /** The message times x^32, its first 32 bits complemented. */
  function Dividend(data: Bytes): (m: Polynomial)
    ensures |m| >= 32
  {
    AddToHead(MessageBits(data) + All32(false), All32(true))
  }

  /** The CRC as the standard defines it: the complement of the remainder. */
  function ReferenceCrc(data: Bytes): Polynomial {
    AddToHead(Remainder(Dividend(data)), All32(true))
  }

  // ---- the bit-serial register ----------------------------------------------------------

  function Bit(b: bool): bv32 { if b then 1 else 0 }

  /** The register with one more message bit divided in. */
  function Advance(r: bv32, b: bool): bv32 {
    Step(Xor(r, Bit(b)))
  }

  function Fold<T>(advance: (T, bool) -> T, r: T, m: Polynomial): T
    decreases |m|
  {
    if m == [] then r else Fold(advance, advance(r, m[0]), m[1..])
  }

  function Serial(r: bv32, m: Polynomial): bv32 {
    Fold(Advance, r, m)
  }

  lemma {:induction false} FoldConcat<T>(advance: (T, bool) -> T, r: T, m: Polynomial, n: Polynomial)
    ensures Fold(advance, r, m + n) == Fold(advance, Fold(advance, r, m), n)
    decreases |m|
  {
    if m == [] {
      assert m + n == n;
    } else {
      assert (m + n)[1..] == m[1..] + n;
      FoldConcat(advance, advance(r, m[0]), m[1..], n);
    }
  }

  predicate Fits(y: bv32, n: nat)
    decreases n
  {
    if n == 0 then y == 0 else Fits(y >> 1, n - 1)
  }

  lemma ByteFits(b: Byte)
    ensures Fits(b as bv32, 8)
  {
    var y := b as bv32;
    assert y >> 8 == 0;
    assert Fits(y >> 8, 0);
    assert Fits(y >> 7, 1) by { assert (y >> 7) >> 1 == y >> 8; }
    assert Fits(y >> 6, 2) by { assert (y >> 6) >> 1 == y >> 7; }
    assert Fits(y >> 5, 3) by { assert (y >> 5) >> 1 == y >> 6; }
    assert Fits(y >> 4, 4) by { assert (y >> 4) >> 1 == y >> 5; }
    assert Fits(y >> 3, 5) by { assert (y >> 3) >> 1 == y >> 4; }
    assert Fits(y >> 2, 6) by { assert (y >> 2) >> 1 == y >> 3; }
    assert Fits(y >> 1, 7) by { assert (y >> 1) >> 1 == y >> 2; }
  }

  lemma SplitLowBit(y: bv32)
    ensures y == Xor(Bit(y & 1 == 1), y & 0xfffffffe)
    ensures Step(y & 0xfffffffe) == y >> 1
  {
  }

  lemma OneBitLater(c: bv32, y: bv32)
    ensures Xor(Step(Xor(c, Bit(y & 1 == 1))), y >> 1) == Step(Xor(c, y))
  {
    var lo, hi := Bit(y & 1 == 1), y & 0xfffffffe;
    calc {
      Step(Xor(c, y));
      { SplitLowBit(y); }
      Step(Xor(c, Xor(lo, hi)));
      { CrcFrames.XorAssociative(c, lo, hi); }
      Step(Xor(Xor(c, lo), hi));
      { StepLinear(Xor(c, lo), hi); }
      Xor(Step(Xor(c, lo)), Step(hi));
      { SplitLowBit(y); }
      Xor(Step(Xor(c, lo)), y >> 1);
    }
  }

  /** Mixing in all bits at once, or one before each step, is the same. */
  lemma {:induction false} SerialByte(c: bv32, y: bv32, n: nat)
    requires Fits(y, n)
    ensures Serial(c, Bits(y, n)) == Steps(Xor(c, y), n)
    decreases n
  {
    if n == 0 {
      XorZero(c);
    } else {
      assert Bits(y, n)[1..] == Bits(y >> 1, n - 1);
      SerialByte(Advance(c, y & 1 == 1), y >> 1, n - 1);
      OneBitLater(c, y);
    }
  }

  lemma XorZero(c: bv32)
    ensures Xor(c, 0) == c
  {
  }

  lemma {:induction false} RunIsSerial(c: bv32, data: Bytes)
    ensures Run(c, data) == Serial(c, MessageBits(data))
  {
    if data != [] {
      var init, b := data[..|data| - 1], data[|data| - 1];
      RunIsSerial(c, init);
      FoldConcat(Advance, c, MessageBits(init), Bits(b as bv32, 8));
      ByteFits(b);
      SerialByte(Run(c, init), b as bv32, 8);
      EightSteps(Xor(Run(c, init), b as bv32));
    }
  }

  // ---- the register is the head of the dividend -----------------------------------------

  lemma {:induction false} UnrollSum<T(!new)>(first: T -> bool, next: T -> T, plus: (T, T) -> T, a: T, b: T, n: nat)
    requires forall x, y :: first(plus(x, y)) == (first(x) != first(y))
    requires forall x, y :: next(plus(x, y)) == plus(next(x), next(y))
    ensures Unroll(first, next, plus(a, b), n) == AddToHead(Unroll(first, next, a, n), Unroll(first, next, b, n))
    decreases n
  {
    if n > 0 {
      UnrollSum(first, next, plus, next(a), next(b), n - 1);
    }
  }

  lemma HalfXor(a: bv32, b: bv32)
    ensures Half(Xor(a, b)) == Xor(Half(a), Half(b))
  {
    calc {
      Half(Xor(a, b));
      (a ^ b) >> 1;
      { XorShift(a, b); }
      (a >> 1) ^ (b >> 1);
      Xor(Half(a), Half(b));
    }
  }

  lemma XorBits(a: bv32, b: bv32, n: nat)
    ensures Bits(Xor(a, b), n) == AddToHead(Bits(a, n), Bits(b, n))
  {
    forall x, y ensures Odd(Xor(x, y)) == (Odd(x) != Odd(y)) { }
    forall x, y ensures Half(Xor(x, y)) == Xor(Half(x), Half(y)) { HalfXor(x, y); }
    UnrollSum(Odd, Half, Xor, a, b, n);
  }

  function Shifted(y: bv32, i: nat): bv32
    decreases i
  {
    if i == 0 then y else Shifted(y >> 1, i - 1)
  }

  lemma {:induction false} ShiftedSum(y: bv32, i: nat, j: nat)
    ensures Shifted(Shifted(y, i), j) == Shifted(y, i + j)
    decreases i
  {
    if i > 0 { ShiftedSum(y >> 1, i - 1, j); }
  }

  lemma ShiftedByEight(y: bv32)
    ensures Shifted(y, 8) == y >> 8
  {
    assert (y >> 1) >> 1 == y >> 2 && (y >> 2) >> 1 == y >> 3 && (y >> 3) >> 1 == y >> 4;
    assert (y >> 4) >> 1 == y >> 5 && (y >> 5) >> 1 == y >> 6 && (y >> 6) >> 1 == y >> 7 && (y >> 7) >> 1 == y >> 8;
    assert Shifted(y, 8) == Shifted(y >> 2, 6) == Shifted(y >> 4, 4) == Shifted(y >> 6, 2) == Shifted(y >> 8, 0);
  }

  lemma ShiftedAway(y: bv32)
    ensures Shifted(y, 32) == 0
  {
    ShiftedByEight(y);
    ShiftedByEight(y >> 8);
    ShiftedByEight((y >> 8) >> 8);
    ShiftedByEight(((y >> 8) >> 8) >> 8);
    ShiftedSum(y, 8, 24);
    ShiftedSum(y >> 8, 8, 16);
    ShiftedSum((y >> 8) >> 8, 8, 8);
    assert (((y >> 8) >> 8) >> 8) >> 8 == 0;
  }

  lemma {:induction false} BitsOneMore(y: bv32, n: nat)
    ensures Bits(y, n + 1) == Bits(y, n) + [Shifted(y, n) & 1 == 1]
    decreases n
  {
    if n > 0 { BitsOneMore(y >> 1, n - 1); }
  }

  lemma ShiftBits(y: bv32)
    ensures Bits(y >> 1, 32) == Bits(y, 32)[1..] + [false]
  {
    BitsOneMore(y >> 1, 31);
    ShiftedAway(y);
    assert Shifted(y >> 1, 31) == Shifted(y, 32);
    assert Bits(y, 32)[1..] == Bits(y >> 1, 31);
  }

  lemma Nibble(y: bv32, n: nat)
    ensures Bits(y, n + 4) == [Odd(y), Odd(y >> 1), Odd(y >> 2), Odd(y >> 3)] + Bits(y >> 4, n)
  {
    assert Half(y) == y >> 1 && Half(y >> 1) == y >> 2 && Half(y >> 2) == y >> 3 && Half(y >> 3) == y >> 4;
    assert Bits(y, n + 4) == [Odd(y)] + Bits(y >> 1, n + 3);
    assert Bits(y >> 1, n + 3) == [Odd(y >> 1)] + Bits(y >> 2, n + 2);
    assert Bits(y >> 2, n + 2) == [Odd(y >> 2)] + Bits(y >> 3, n + 1);
    assert Bits(y >> 3, n + 1) == [Odd(y >> 3)] + Bits(y >> 4, n);
  }

  lemma LowGeneratorBits()
    ensures Bits(POLY, 32) == [false, false, false, false, false, true, false, false, true, true, false, false, false, false, false, true] + Bits(0xedb8, 16)
  {
    Nibble(0xedb88320, 28);
    Nibble(0xedb8832, 24);
    Nibble(0xedb883, 20);
    Nibble(0xedb88, 16);
  }

  lemma HighGeneratorBits()
    ensures Bits(0xedb8, 16) == [false, false, false, true, true, true, false, true, true, false, true, true, false, true, true, true]
  {
    Nibble(0xedb8, 12);
    Nibble(0xedb, 8);
    Nibble(0xed, 4);
    Nibble(0xe, 0);
  }

  /** The reflected constant holds the generator's coefficients below x^32. */
  lemma GeneratorBits()
    ensures Bits(POLY, 32) == Generator()[1..]
  {
    LowGeneratorBits();
    HighGeneratorBits();
  }

  // ---- division and register agree ------------------------------------------------------

  lemma HeadParity(r: bv32, b: bool)
    ensures Odd(Xor(r, Bit(b))) == (Odd(r) != b)
    ensures Half(Xor(r, Bit(b))) == Half(r)
  {
  }

  lemma StepByParity(x: bv32)
    ensures Step(x) == if Odd(x) then Xor(POLY, Half(x)) else Half(x)
  {
  }

  /** Dividing out one bit moves the head of the dividend as it moves the register. */
  ghost predicate MovesAlike<T>(advance: (T, bool) -> T, bits: T -> Polynomial, r: T, m: Polynomial) {
    |m| > 32 && |bits(r)| == 32 && |bits(advance(r, m[0]))| == 32 ==>
      var d := AddToHead(m, bits(r));
      (if d[0] then AddToHead(d, Generator()) else d)[1..] == AddToHead(m[1..], bits(advance(r, m[0])))
  }

  function Bits32(r: bv32): Polynomial {
    Bits(r, 32)
  }

  lemma DivideOneBit(r: bv32, m: Polynomial)
    ensures MovesAlike(Advance, Bits32, r, m)
  {
    if |m| > 32 {
      var x := Xor(r, Bit(m[0]));
      HeadParity(r, m[0]);
      StepByParity(x);
      ShiftBits(r);
      XorBits(POLY, Half(r), 32);
      GeneratorBits();
      HeadMoves(m, Bits(r, 32), Bits(Half(r), 32), Odd(r));
    }
  }

  lemma HeadMoves(m: Polynomial, p: Polynomial, q: Polynomial, odd: bool)
    requires |m| > 32 && |p| == 32 && p[0] == odd && q == p[1..] + [false]
    ensures var d := AddToHead(m, p);
      && d[0] == (odd != m[0])
      && (if d[0] then AddToHead(d, Generator()) else d)[1..] ==
         AddToHead(m[1..], if odd != m[0] then AddToHead(Generator()[1..], q) else q)
  {
    var g := Generator();
    var d := AddToHead(m, p);
    var left := (if d[0] then AddToHead(d, g) else d)[1..];
    var right := AddToHead(m[1..], if odd != m[0] then AddToHead(g[1..], q) else q);
    forall i | 0 <= i < |left| ensures left[i] == right[i] {
      if d[0] {  }
      if i < 31 { assert q[i] == p[i + 1]; }
    }
  }

  lemma {:induction false} DivisionIsFold<T(!new)>(advance: (T, bool) -> T, bits: T -> Polynomial, r: T, m: Polynomial)
    requires forall x, n {:trigger MovesAlike(advance, bits, x, n)} :: MovesAlike(advance, bits, x, n)
    requires forall x :: |bits(x)| == 32
    requires |m| >= 32 && m[|m| - 32..] == All32(false)
    ensures Remainder(AddToHead(m, bits(r))) == bits(Fold(advance, r, m[..|m| - 32]))
    decreases |m|
  {
    if |m| == 32 {
      assert m == All32(false);
      assert AddToHead(m, bits(r)) == bits(r);
    } else {
      var next := advance(r, m[0]);
      assert MovesAlike(advance, bits, r, m);
      assert m[1..][|m| - 33..] == m[|m| - 32..];
      DivisionIsFold(advance, bits, next, m[1..]);
      assert m[..|m| - 32][1..] == m[1..][..|m| - 33];
    }
  }

  lemma AllOnes()
    ensures Bits(ONES, 32) == All32(true)
  {
    forall i | 0 <= i < 32 ensures Bits(ONES, 32)[i] { OnesAt(i); }
  }

  lemma {:induction false} OnesAt(i: nat)
    requires i < 32
    ensures Bits(ONES, 32)[i]
  {
    Nibble(0xffffffff, 28);
    Nibble(0xfffffff, 24);
    Nibble(0xffffff, 20);
    Nibble(0xfffff, 16);
    Nibble(0xffff, 12);
    Nibble(0xfff, 8);
    Nibble(0xff, 4);
    Nibble(0xf, 0);
  }

  /** For every message, the register started at all ones and complemented at the end holds
      the CRC of the standard. */
  lemma CrcIsRemainder(data: Bytes)
    ensures Bits(Crc(data), 32) == ReferenceCrc(data)
  {
    var m := MessageBits(data) + All32(false);
    assert m[..|m| - 32] == MessageBits(data) && m[|m| - 32..] == All32(false);
    RunIsSerial(ONES, data);
    AllOnes();
    forall r, n ensures MovesAlike(Advance, Bits32, r, n) { DivideOneBit(r, n); }
    DivisionIsFold(Advance, Bits32, ONES, m);
    XorBits(Run(ONES, data), ONES, 32);
  }
}
