/** SHA-256 as sections 4.1.2, 5.1.1, 5.2.1, 5.3.3 and 6.2.2 of FIPS 180-4 define it. */
module Sha256Standard {
  import opened Types
  import opened Encoding

  type Word = bv32
  type Block = b: Bytes | |b| == 64 witness seq(64, _ => 0)

  /** Section 3.2: circular right shift. */
  function Rotr(x: Word, n: nat): Word
    requires n <= 32
  {
    (x >> n) | (x << (32 - n))
  }

  function Ch(x: Word, y: Word, z: Word): Word { (x & y) ^ (!x & z) }

  function Maj(x: Word, y: Word, z: Word): Word { (x & y) ^ (x & z) ^ (y & z) }

  function BigSigma0(x: Word): Word { Rotr(x, 2) ^ Rotr(x, 13) ^ Rotr(x, 22) }

  function BigSigma1(x: Word): Word { Rotr(x, 6) ^ Rotr(x, 11) ^ Rotr(x, 25) }

  function SmallSigma0(x: Word): Word { Rotr(x, 7) ^ Rotr(x, 18) ^ (x >> 3) }

  function SmallSigma1(x: Word): Word { Rotr(x, 17) ^ Rotr(x, 19) ^ (x >> 10) }

  /** Section 4.2.2. */
  const K: seq<Word> := [
    0x428a2f98, 0x71374491, 0xb5c0fbcf, 0xe9b5dba5, 0x3956c25b, 0x59f111f1, 0x923f82a4, 0xab1c5ed5,
    0xd807aa98, 0x12835b01, 0x243185be, 0x550c7dc3, 0x72be5d74, 0x80deb1fe, 0x9bdc06a7, 0xc19bf174,
    0xe49b69c1, 0xefbe4786, 0x0fc19dc6, 0x240ca1cc, 0x2de92c6f, 0x4a7484aa, 0x5cb0a9dc, 0x76f988da,
    0x983e5152, 0xa831c66d, 0xb00327c8, 0xbf597fc7, 0xc6e00bf3, 0xd5a79147, 0x06ca6351, 0x14292967,
    0x27b70a85, 0x2e1b2138, 0x4d2c6dfc, 0x53380d13, 0x650a7354, 0x766a0abb, 0x81c2c92e, 0x92722c85,
    0xa2bfe8a1, 0xa81a664b, 0xc24b8b70, 0xc76c51a3, 0xd192e819, 0xd6990624, 0xf40e3585, 0x106aa070,
    0x19a4c116, 0x1e376c08, 0x2748774c, 0x34b0bcb5, 0x391c0cb3, 0x4ed8aa4a, 0x5b9cca4f, 0x682e6ff3,
    0x748f82ee, 0x78a5636f, 0x84c87814, 0x8cc70208, 0x90befffa, 0xa4506ceb, 0xbef9a3f7, 0xc67178f2]

  /** The eight working variables, or the eight words of a hash value. */
  datatype Words = Words(a: Word, b: Word, c: Word, d: Word, e: Word, f: Word, g: Word, h: Word)

  /** Section 5.3.3. */
  const IV := Words(
    0x6a09e667, 0xbb67ae85, 0x3c6ef372, 0xa54ff53a, 0x510e527f, 0x9b05688c, 0x1f83d9ab, 0x5be0cd19)

  function BigEndianWord(b0: Byte, b1: Byte, b2: Byte, b3: Byte): Word {
    ((b0 as Word) << 24) | ((b1 as Word) << 16) | ((b2 as Word) << 8) | (b3 as Word)
  }

  /** The recurrence of the schedule. Addition is modulo 2^32, so the order of the four terms
      does not matter; this is the program's. */
  function NextWord(w16: Word, w15: Word, w7: Word, w2: Word): Word {
    w16 + SmallSigma0(w15) + w7 + SmallSigma1(w2)
  }

  /** Section 6.2.2, step 1: the message schedule. */
  function Schedule(block: Block, t: nat): Word
    requires t < 64
  {
    if t < 16 then BigEndianWord(block[4 * t], block[4 * t + 1], block[4 * t + 2], block[4 * t + 3])
    else NextWord(Schedule(block, t - 16), Schedule(block, t - 15), Schedule(block, t - 7), Schedule(block, t - 2))
  }

  /** Section 6.2.2, step 3: one round. */
  function Round(v: Words, k: Word, w: Word): Words {
    var t1 := v.h + BigSigma1(v.e) + Ch(v.e, v.f, v.g) + k + w;
    var t2 := BigSigma0(v.a) + Maj(v.a, v.b, v.c);
    Words(t1 + t2, v.a, v.b, v.c, v.d + t1, v.e, v.f, v.g)
  }

  /** The working variables after the first `t` rounds. */
  function Rounds(v: Words, block: Block, t: nat): Words
    requires t <= 64
  {
    if t == 0 then v else Round(Rounds(v, block, t - 1), K[t - 1], Schedule(block, t - 1))
  }

  function Plus(v: Words, u: Words): Words {
    Words(v.a + u.a, v.b + u.b, v.c + u.c, v.d + u.d, v.e + u.e, v.f + u.f, v.g + u.g, v.h + u.h)
  }

  /** Section 6.2.2: the hash value after one more block. */
  function Compress(v: Words, block: Block): Words {
    Plus(v, Rounds(v, block, 64))
  }

  /** A compression function applied to a whole number of blocks in turn. */
  function Chain<T>(compress: (T, Block) -> T, v: T, data: Bytes): T
    requires |data| % 64 == 0
  {
    if data == [] then v
    else compress(Chain(compress, v, data[..|data| - 64]), data[|data| - 64..])
  }

  /** Zero bytes between the 0x80 marker and the length, for a message of `n` bytes. */
  function ZeroCount(n: nat): nat { (55 - n) % 64 }

  function Zeros(k: nat): (z: Bytes)
    ensures |z| == k
  {
    seq(k, _ => 0)
  }

  lemma WholeAfterLength(n: nat)
    ensures (n + 1 + ZeroCount(n) + 8) % 64 == 0
  {
  }

  /** Section 5.1.1; the length field holds the bit length modulo 2^64. */
  function Padded(msg: Bytes): (p: Bytes)
    ensures |p| % 64 == 0
  {
    WholeAfterLength(|msg|);
    msg + [0x80] + Zeros(ZeroCount(|msg|)) + BE(8 * |msg| % 0x1_0000_0000_0000_0000, 8)
  }

  function WordBytes(w: Word): (r: Bytes)
    ensures |r| == 4
  {
    [((w >> 24) & 0xff) as Byte, ((w >> 16) & 0xff) as Byte, ((w >> 8) & 0xff) as Byte, (w & 0xff) as Byte]
  }

  function Serialize(v: Words): (r: Bytes)
    ensures |r| == 32
  {
    WordBytes(v.a) + WordBytes(v.b) + WordBytes(v.c) + WordBytes(v.d)
    + WordBytes(v.e) + WordBytes(v.f) + WordBytes(v.g) + WordBytes(v.h)
  }

  function Sha256(msg: Bytes): (digest: Bytes)
    ensures |digest| == 32
  {
    Serialize(Chain(Compress, IV, Padded(msg)))
  }

  /** The zero count is the least that ends the padded message on a block boundary, as
      section 5.1.1 asks. */
  lemma PaddingIsLeast(n: nat, k: nat)
    ensures (n + 1 + ZeroCount(n)) % 64 == 56
    ensures (n + 1 + k) % 64 == 56 ==> ZeroCount(n) <= k
  {
  }

  /** Below 2^64 bits the length field is the exact bit length. */
  lemma LengthField(msg: Bytes)
    requires 8 * |msg| < 0x1_0000_0000_0000_0000
    ensures FromBE(Padded(msg)[|Padded(msg)| - 8..]) == 8 * |msg|
  {
    BigEndian8(8 * |msg|);
    var head := msg + [0x80] + Zeros(ZeroCount(|msg|));
    assert 8 * |msg| % 0x1_0000_0000_0000_0000 == 8 * |msg|;
  }

  lemma ModPlus(a: nat, b: nat)
    ensures (a % 0x1_0000_0000_0000_0000 + b) % 0x1_0000_0000_0000_0000 == (a + b) % 0x1_0000_0000_0000_0000
  {
  }
}

/** Streaming: bytes go through a 64-byte buffer, whatever the compression function. */
module Streaming {
  import opened Types
  import opened Sha256Standard

  datatype Stream<T> = Stream(state: T, tail: Bytes)

  /** One more byte; a full buffer is compressed. */
  function Absorb<T>(compress: (T, Block) -> T, s: Stream<T>, b: Byte): (r: Stream<T>)
    requires |s.tail| < 64
    ensures |r.tail| < 64
  {
    if |s.tail| < 63 then Stream(s.state, s.tail + [b])
    else Stream(compress(s.state, s.tail + [b]), [])
  }

  function AbsorbAll<T>(compress: (T, Block) -> T, s: Stream<T>, data: Bytes): (r: Stream<T>)
    requires |s.tail| < 64
    ensures |r.tail| < 64
  {
    if data == [] then s
    else Absorb(compress, AbsorbAll(compress, s, data[..|data| - 1]), data[|data| - 1])
  }

  /** Feeding a message in two parts is feeding it whole. */
  lemma {:induction false} AbsorbParts<T>(compress: (T, Block) -> T, s: Stream<T>, a: Bytes, b: Bytes)
    requires |s.tail| < 64
    ensures AbsorbAll(compress, AbsorbAll(compress, s, a), b) == AbsorbAll(compress, s, a + b)
  {
    if b == [] {
      assert a + b == a;
    } else {
      assert (a + b)[..|a + b| - 1] == a + b[..|b| - 1];
      AbsorbParts(compress, s, a, b[..|b| - 1]);
    }
  }

  lemma AbsorbOne<T>(compress: (T, Block) -> T, s: Stream<T>, data: Bytes, i: nat)
    requires |s.tail| < 64 && i < |data|
    ensures AbsorbAll(compress, s, data[..i + 1]) == Absorb(compress, AbsorbAll(compress, s, data[..i]), data[i])
  {
    assert data[..i + 1][..i] == data[..i];
  }

  /** What the stream holds after `msg`: its whole blocks compressed, the rest buffered. */
  ghost predicate Holds<T>(compress: (T, Block) -> T, v: T, s: Stream<T>, whole: Bytes, msg: Bytes) {
    && msg == whole + s.tail && |s.tail| < 64
    && |whole| % 64 == 0 && s.state == Chain(compress, v, whole)
  }

  lemma ChainOneMore<T>(compress: (T, Block) -> T, v: T, whole: Bytes, block: Block)
    requires |whole| % 64 == 0
    ensures |whole + block| % 64 == 0
    ensures Chain(compress, v, whole + block) == compress(Chain(compress, v, whole), block)
  {
    var d := whole + block;
    assert d[..|d| - 64] == whole && d[|d| - 64..] == block;
  }

  lemma HoldsOneMore<T>(compress: (T, Block) -> T, v: T, s: Stream<T>, whole: Bytes, msg: Bytes, b: Byte)
    returns (longer: Bytes)
    requires Holds(compress, v, s, whole, msg)
    ensures Holds(compress, v, Absorb(compress, s, b), longer, msg + [b])
  {
    if |s.tail| < 63 {
      longer := whole;
      assert msg + [b] == whole + (s.tail + [b]);
    } else {
      var block: Block := s.tail + [b];
      ChainOneMore(compress, v, whole, block);
      longer := whole + block;
      assert msg + [b] == longer + [];
    }
  }

  lemma {:induction false} StreamHolds<T>(compress: (T, Block) -> T, v: T, msg: Bytes) returns (whole: Bytes)
    ensures Holds(compress, v, AbsorbAll(compress, Stream(v, []), msg), whole, msg)
  {
    if msg == [] {
      whole := [];
    } else {
      var init := msg[..|msg| - 1];
      whole := StreamHolds(compress, v, init);
      whole := HoldsOneMore(compress, v, AbsorbAll(compress, Stream(v, []), init), whole, init, msg[|msg| - 1]);
      assert msg == init + [msg[|msg| - 1]];
    }
  }

  lemma TailLength<T>(compress: (T, Block) -> T, v: T, msg: Bytes)
    ensures |AbsorbAll(compress, Stream(v, []), msg).tail| == |msg| % 64
  {
    var whole := StreamHolds(compress, v, msg);
  }

  /** After a whole number of blocks the buffer is empty and the state is the chained value. */
  lemma WholeBlocks<T>(compress: (T, Block) -> T, v: T, msg: Bytes)
    requires |msg| % 64 == 0
    ensures AbsorbAll(compress, Stream(v, []), msg) == Stream(Chain(compress, v, msg), [])
  {
    var whole := StreamHolds(compress, v, msg);
    var s := AbsorbAll(compress, Stream(v, []), msg);
    assert |s.tail| == 0;
    assert whole + s.tail == whole;
  }
}

/** The streaming hasher. */
module Sha256Streams {
  import opened Types
  import opened Encoding
  import opened Sha256Standard
  import opened Streaming

  class Sha256Stream {
    var state: Words
    const buffer: array<Byte>
    var buffLen: nat
    var totalLen: U64

    ghost predicate Valid()
      reads this
    {
      buffer.Length == 64 && buffLen < 64
    }

    ghost function View(): (s: Stream<Words>)
      requires Valid()
      reads this, buffer
      ensures |s.tail| < 64
    {
      Stream(state, buffer[..buffLen])
    }

    constructor ()
      ensures Valid() && fresh(buffer)
      ensures View() == Stream(IV, []) && totalLen == 0
    {
      state := IV;
      buffer := new Byte[64];
      buffLen, totalLen := 0, 0;
    }

    /** The first sixteen words of the schedule: the buffer, big-endian. */
    method LoadWords(w: array<Word>)
      requires buffer.Length == 64 && w.Length == 64
      modifies w
      ensures forall j :: 0 <= j < 16 ==> w[j] == Schedule(buffer[..], j)
    {
      for i := 0 to 16
        invariant forall j :: 0 <= j < i ==> w[j] == Schedule(buffer[..], j)
      {
        assert buffer[..][4 * i] == buffer[i * 4];
        w[i] := BigEndianWord(buffer[i * 4], buffer[i * 4 + 1], buffer[i * 4 + 2], buffer[i * 4 + 3]);
      }
    }

    /** The remaining words, each from four earlier ones. */
    method ExtendWords(w: array<Word>, ghost block: Block)
      requires w.Length == 64
      requires forall j :: 0 <= j < 16 ==> w[j] == Schedule(block, j)
      modifies w
      ensures forall j :: 0 <= j < 64 ==> w[j] == Schedule(block, j)
    {
      for i := 16 to 64
        invariant forall j :: 0 <= j < i ==> w[j] == Schedule(block, j)
      {
        w[i] := NextWord(w[i - 16], w[i - 15], w[i - 7], w[i - 2]);
      }
    }

    /** The compression function over the full buffer, in place on the state. */
    method Transform()
      requires buffer.Length == 64
      modifies this`state
      ensures state == Compress(old(state), buffer[..])
    {
      ghost var block: Block := buffer[..];
      var w := new Word[64];
      LoadWords(w);
      ExtendWords(w, block);
      var v := state;
      for i := 0 to 64
        invariant v == Rounds(state, block, i)
      {
        v := Round(v, K[i], w[i]);
      }
      state := Plus(state, v);
    }

    method Update(data: Bytes)
      requires Valid()
      modifies this, buffer
      ensures Valid()
      ensures View() == AbsorbAll(Compress, old(View()), data)
      ensures totalLen == (old(totalLen) + |data|) % 0x1_0000_0000_0000_0000
    {
      ghost var s := View();
      for i := 0 to |data|
        invariant Valid() && View() == AbsorbAll(Compress, s, data[..i]) && totalLen == old(totalLen)
      {
        AbsorbOne(Compress, s, data, i);
        UpdateByte(data[i]);
      }
      assert data[..|data|] == data;
      totalLen := (totalLen + |data|) % 0x1_0000_0000_0000_0000;
    }

    /** The body of the update loop. */
    method UpdateByte(b: Byte)
      requires Valid()
      modifies this`state, this`buffLen, buffer
      ensures Valid()
      ensures View() == Absorb(Compress, old(View()), b)
    {
      ghost var tail := buffer[..buffLen];
      buffer[buffLen] := b;
      buffLen := buffLen + 1;
      assert buffer[..buffLen] == tail + [b];
      if buffLen == 64 {
        assert buffer[..] == tail + [b];
        Transform();
        buffLen := 0;
      }
    }

    /** Feed zero bytes until the length field would end a block. */
    method PadWithZeros(ghost soFar: Bytes, ghost n: nat)
      requires Valid() && |soFar| == n + 1
      requires View() == AbsorbAll(Compress, Stream(IV, []), soFar)
      modifies this, buffer
      ensures Valid()
      ensures View() == AbsorbAll(Compress, Stream(IV, []), soFar + Zeros(ZeroCount(n)))
    {
      ghost var k := 0;
      assert soFar + Zeros(0) == soFar;
      TailLength(Compress, IV, soFar);
      while buffLen != 56
        invariant Valid() && k <= ZeroCount(n)
        invariant View() == AbsorbAll(Compress, Stream(IV, []), soFar + Zeros(k))
        invariant buffLen == (n + 1 + k) % 64
        decreases ZeroCount(n) - k
      {
        NotYetPadded(n, k);
        Update([0x00]);
        PadStep(soFar, k);
        k := k + 1;
      }
      PaddingIsLeast(n, k);
    }

    /** Finalisation appends exactly the padding of the standard. */
    method Finish(ghost msg: Bytes) returns (digest: Bytes)
      requires Valid()
      requires View() == AbsorbAll(Compress, Stream(IV, []), msg)
      requires totalLen == |msg| % 0x1_0000_0000_0000_0000
      modifies this, buffer
      ensures digest == Sha256(msg)
      ensures Valid() && buffLen == 0
    {
      var bitLen := totalLen * 8 % 0x1_0000_0000_0000_0000;
      BitLength(|msg|);
      Update([0x80]);
      AbsorbParts(Compress, Stream(IV, []), msg, [0x80]);
      PadWithZeros(msg + [0x80], |msg|);
      ghost var soFar := msg + [0x80] + Zeros(ZeroCount(|msg|));
      Update(BE(bitLen, 8));
      AbsorbParts(Compress, Stream(IV, []), soFar, BE(bitLen, 8));
      WholeBlocks(Compress, IV, Padded(msg));
      digest := Serialize(state);
    }
  }

  lemma BitLength(n: nat)
    ensures (n % 0x1_0000_0000_0000_0000) * 8 % 0x1_0000_0000_0000_0000 == 8 * n % 0x1_0000_0000_0000_0000
  {
  }

  lemma PadStep(soFar: Bytes, k: nat)
    ensures AbsorbAll(Compress, AbsorbAll(Compress, Stream(IV, []), soFar + Zeros(k)), [0x00]) ==
            AbsorbAll(Compress, Stream(IV, []), soFar + Zeros(k + 1))
    ensures |AbsorbAll(Compress, Stream(IV, []), soFar + Zeros(k + 1)).tail| == (|soFar| + k + 1) % 64
  {
    AbsorbParts(Compress, Stream(IV, []), soFar + Zeros(k), [0x00]);
    assert (soFar + Zeros(k)) + [0x00] == soFar + Zeros(k + 1);
    TailLength(Compress, IV, soFar + Zeros(k + 1));
  }

  lemma NotYetPadded(n: nat, k: nat)
    requires k <= ZeroCount(n) && (n + 1 + k) % 64 != 56
    ensures k < ZeroCount(n)
  {
    PaddingIsLeast(n, ZeroCount(n));
  }

  function Flatten(pieces: seq<Bytes>): Bytes {
    if pieces == [] then [] else Flatten(pieces[..|pieces| - 1]) + pieces[|pieces| - 1]
  }

  /** However a message is split across calls of `update`, the digest is that of the whole. */
  method DigestInPieces(pieces: seq<Bytes>) returns (digest: Bytes)
    ensures digest == Sha256(Flatten(pieces))
  {
    var h := new Sha256Stream();
    for i := 0 to |pieces|
      invariant h.Valid() && fresh(h) && fresh(h.buffer)
      invariant h.View() == AbsorbAll(Compress, Stream(IV, []), Flatten(pieces[..i]))
      invariant h.totalLen == |Flatten(pieces[..i])| % 0x1_0000_0000_0000_0000
    {
      h.Update(pieces[i]);
      AbsorbParts(Compress, Stream(IV, []), Flatten(pieces[..i]), pieces[i]);
      ModPlus(|Flatten(pieces[..i])|, |pieces[i]|);
      assert pieces[..i + 1][..i] == pieces[..i];
    }
    assert pieces[..|pieces|] == pieces;
    digest := h.Finish(Flatten(pieces));
  }

  /** `Sha256::digest`. */
  method Digest(data: Bytes) returns (digest: Bytes)
    ensures digest == Sha256(data)
  {
    digest := DigestInPieces([data]);
    assert Flatten([data]) == data;
  }
}
