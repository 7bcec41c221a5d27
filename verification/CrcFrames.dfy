/** Frames with a CRC-32 trailer, and the corruptions the trailer always exposes. */
module CrcFrames {
  import opened Types
  import opened Crc32

  /** The four trailer bytes, least significant first. */
  function Trailer(c: bv32): (t: Bytes)
    ensures |t| == 4
  {
    [(c & 0xff) as Byte, ((c >> 8) & 0xff) as Byte, ((c >> 16) & 0xff) as Byte, ((c >> 24) & 0xff) as Byte]
  }

  /** `finalize`: the payload and its CRC. */
  function Seal(payload: Bytes): Bytes {
    payload + Trailer(Crc(payload))
  }

  function TrailerWord(frame: Bytes): bv32
    requires |frame| >= 4
  {
    var n := |frame| - 4;
    (frame[n] as bv32) | ((frame[n + 1] as bv32) << 8) | ((frame[n + 2] as bv32) << 16) | ((frame[n + 3] as bv32) << 24)
  }

  /** `verify_crc_frame`. */
  function Open(frame: Bytes): Outcome<Bytes> {
    if |frame| < 4 then Threw(FrameTooShort)
    else if TrailerWord(frame) != Crc(frame[..|frame| - 4]) then Threw(CrcMismatch)
    else Returned(frame[..|frame| - 4])
  }

  method VerifyCrcFrame(frame: Bytes) returns (r: Outcome<Bytes>)
    ensures r == Open(frame)
  {
    if |frame| < 4 { return Threw(FrameTooShort); }
    var payload := |frame| - 4;
    var expected := TrailerWord(frame);
    var actual := Compute(frame[..payload]);
    if expected != actual { return Threw(CrcMismatch); }
    r := Returned(frame[..payload]);
  }

  lemma BytesOfWord(c: bv32)
    ensures (((c & 0xff) as Byte) as bv32) | ((((c >> 8) & 0xff) as Byte as bv32) << 8) |
            ((((c >> 16) & 0xff) as Byte as bv32) << 16) | ((((c >> 24) & 0xff) as Byte as bv32) << 24) == c
  {
  }

  lemma WordOfBytes(b0: Byte, b1: Byte, b2: Byte, b3: Byte)
    ensures var w := (b0 as bv32) | ((b1 as bv32) << 8) | ((b2 as bv32) << 16) | ((b3 as bv32) << 24);
      && (w & 0xff) as Byte == b0 && ((w >> 8) & 0xff) as Byte == b1
      && ((w >> 16) & 0xff) as Byte == b2 && ((w >> 24) & 0xff) as Byte == b3
  {
  }

  /** What is sealed is read back. */
  lemma OpenSeal(payload: Bytes)
    ensures Open(Seal(payload)) == Returned(payload)
  {
    BytesOfWord(Crc(payload));
    assert Seal(payload)[..|payload|] == payload;
  }

  /** Nothing but sealed payloads is accepted. */
  lemma OpenedIsSealed(frame: Bytes)
    requires Open(frame).Returned?
    ensures frame == Seal(Open(frame).value)
  {
    var n := |frame| - 4;
    WordOfBytes(frame[n], frame[n + 1], frame[n + 2], frame[n + 3]);
    assert frame == frame[..n] + [frame[n], frame[n + 1], frame[n + 2], frame[n + 3]];
  }

  // ---- four bytes are one word ----------------------------------------------------------

  lemma ShiftBack(w: bv32)
    requires w < 0x1000000
    ensures (w << 8) & 0xff == 0 && (w << 8) >> 8 == w
  {
  }

  /** Mixing a value in after eight steps is mixing it in, shifted, before them. */
  lemma Defer(x: bv32, w: bv32)
    requires w < 0x1000000
    ensures Xor(Step8(x), w) == Step8(Xor(x, w << 8))
  {
    Step8Linear(x, w << 8);
    ShiftBack(w);
    ShiftOut(w << 8);
  }

  lemma DeferTwice(x: bv32, w: bv32)
    requires w < 0x10000
    ensures Xor(Step8(Step8(x)), w) == Step8(Step8(Xor(x, w << 16)))
  {
    assert w << 8 < 0x1000000 && (w << 8) << 8 == w << 16;
    calc {
      Xor(Step8(Step8(x)), w);
      { Defer(Step8(x), w); }
      Step8(Xor(Step8(x), w << 8));
      { Defer(x, w << 8); }
      Step8(Step8(Xor(x, w << 16)));
    }
  }

  lemma DeferThrice(x: bv32, w: bv32)
    requires w < 0x100
    ensures Xor(Step8(Step8(Step8(x))), w) == Step8(Step8(Step8(Xor(x, w << 24))))
  {
    assert w << 8 < 0x10000 && (w << 8) << 16 == w << 24;
    calc {
      Xor(Step8(Step8(Step8(x))), w);
      { Defer(Step8(Step8(x)), w); }
      Step8(Xor(Step8(Step8(x)), w << 8));
      { DeferTwice(x, w << 8); }
      Step8(Step8(Step8(Xor(x, w << 24))));
    }
  }

  /** Four bytes as one word, least significant first. */
  function Word(b0: Byte, b1: Byte, b2: Byte, b3: Byte): bv32 {
    Xor(b0 as bv32, Xor((b1 as bv32) << 8, Xor((b2 as bv32) << 16, (b3 as bv32) << 24)))
  }

  lemma XorAssociative(a: bv32, b: bv32, c: bv32)
    ensures Xor(Xor(a, b), c) == Xor(a, Xor(b, c))
  {
  }

  lemma Reassociate<T(!new)>(plus: (T, T) -> T, c: T, e0: T, e1: T, e2: T, e3: T)
    requires forall x, y, z :: plus(plus(x, y), z) == plus(x, plus(y, z))
    ensures plus(plus(plus(plus(c, e0), e1), e2), e3) == plus(c, plus(e0, plus(e1, plus(e2, e3))))
  {
  }

  function MixIn(c: bv32, b0: Byte, b1: Byte, b2: Byte, b3: Byte): bv32 {
    Xor(Xor(Xor(Xor(c, b0 as bv32), (b1 as bv32) << 8), (b2 as bv32) << 16), (b3 as bv32) << 24)
  }

  lemma MixInWord(c: bv32, b0: Byte, b1: Byte, b2: Byte, b3: Byte)
    ensures MixIn(c, b0, b1, b2, b3) == Xor(c, Word(b0, b1, b2, b3))
  {
    forall x, y, z ensures Xor(Xor(x, y), z) == Xor(x, Xor(y, z)) { XorAssociative(x, y, z); }
    Reassociate(Xor, c, b0 as bv32, (b1 as bv32) << 8, (b2 as bv32) << 16, (b3 as bv32) << 24);
  }

  lemma FourBytes(c: bv32, b0: Byte, b1: Byte, b2: Byte, b3: Byte)
    ensures Feed(Feed(Feed(Feed(c, b0), b1), b2), b3) ==
            Step8(Step8(Step8(Step8(MixIn(c, b0, b1, b2, b3)))))
  {
    var x0 := Xor(c, b0 as bv32);
    var x1 := Xor(x0, (b1 as bv32) << 8);
    var x2 := Xor(x1, (b2 as bv32) << 16);
    calc {
      Feed(Feed(Feed(Feed(c, b0), b1), b2), b3);
      Step8(Xor(Step8(Xor(Step8(Xor(Step8(x0), b1 as bv32)), b2 as bv32)), b3 as bv32));
      { Defer(x0, b1 as bv32); }
      Step8(Xor(Step8(Xor(Step8(Step8(x1)), b2 as bv32)), b3 as bv32));
      { DeferTwice(x1, b2 as bv32); }
      Step8(Xor(Step8(Step8(Step8(x2))), b3 as bv32));
      { DeferThrice(x2, b3 as bv32); }
      Step8(Step8(Step8(Step8(Xor(x2, (b3 as bv32) << 24)))));
    }
  }

  lemma WordInjective(b0: Byte, b1: Byte, b2: Byte, b3: Byte, d0: Byte, d1: Byte, d2: Byte, d3: Byte)
    requires Word(b0, b1, b2, b3) == Word(d0, d1, d2, d3)
    ensures b0 == d0 && b1 == d1 && b2 == d2 && b3 == d3
  {
  }

  lemma XorInjective(x: bv32, y: bv32, w: bv32)
    requires Xor(x, w) == Xor(y, w)
    ensures x == y
  {
  }

  lemma XorLeftInjective(c: bv32, u: bv32, v: bv32)
    requires Xor(c, u) == Xor(c, v)
    ensures u == v
  {
  }

  /** The register never forgets a difference. */
  lemma {:induction false} RunInjective(c: bv32, d: bv32, data: Bytes)
    requires Run(c, data) == Run(d, data)
    ensures c == d
  {
    if data != [] {
      var init, b := data[..|data| - 1], data[|data| - 1];
      Step8Injective(Xor(Run(c, init), b as bv32), Xor(Run(d, init), b as bv32));
      XorInjective(Run(c, init), Run(d, init), b as bv32);
      RunInjective(c, d, init);
    }
  }

  lemma {:induction false} RunConcat(c: bv32, s: Bytes, t: Bytes)
    ensures Run(c, s + t) == Run(Run(c, s), t)
  {
    if t == [] {
      assert s + t == s;
    } else {
      assert (s + t)[..|s + t| - 1] == s + t[..|t| - 1];
      RunConcat(c, s, t[..|t| - 1]);
    }
  }

  lemma RunTwo(c: bv32, w: Bytes)
    requires |w| == 2
    ensures Run(c, w) == Feed(Feed(c, w[0]), w[1])
  {
    assert w[..1][..0] == [];
    assert Run(c, w[..1]) == Feed(c, w[0]);
  }

  lemma RunFour(c: bv32, w: Bytes)
    requires |w| == 4
    ensures Run(c, w) == Step8(Step8(Step8(Step8(MixIn(c, w[0], w[1], w[2], w[3])))))
  {
    calc {
      Run(c, w);
      { assert w == w[..2] + w[2..]; RunConcat(c, w[..2], w[2..]); }
      Run(Run(c, w[..2]), w[2..]);
      { RunTwo(Run(c, w[..2]), w[2..]); }
      Feed(Feed(Run(c, w[..2]), w[2]), w[3]);
      { RunTwo(c, w[..2]); }
      Feed(Feed(Feed(Feed(c, w[0]), w[1]), w[2]), w[3]);
      { FourBytes(c, w[0], w[1], w[2], w[3]); }
      Step8(Step8(Step8(Step8(MixIn(c, w[0], w[1], w[2], w[3])))));
    }
  }

  lemma FourfoldInjective(x: bv32, y: bv32)
    requires Step8(Step8(Step8(Step8(x)))) == Step8(Step8(Step8(Step8(y))))
    ensures x == y
  {
    Step8Injective(Step8(Step8(Step8(x))), Step8(Step8(Step8(y))));
    Step8Injective(Step8(Step8(x)), Step8(Step8(y)));
    Step8Injective(Step8(x), Step8(y));
    Step8Injective(x, y);
  }

  lemma FourInjective(c: bv32, w: Bytes, v: Bytes)
    requires |w| == |v| == 4 && Run(c, w) == Run(c, v)
    ensures w == v
  {
    SameMix(c, w, v);
    SameWord(c, w[0], w[1], w[2], w[3], v[0], v[1], v[2], v[3]);
    WordInjective(w[0], w[1], w[2], w[3], v[0], v[1], v[2], v[3]);
    assert w == [w[0], w[1], w[2], w[3]] && v == [v[0], v[1], v[2], v[3]];
  }

  lemma SameMix(c: bv32, w: Bytes, v: Bytes)
    requires |w| == |v| == 4 && Run(c, w) == Run(c, v)
    ensures MixIn(c, w[0], w[1], w[2], w[3]) == MixIn(c, v[0], v[1], v[2], v[3])
  {
    calc {
      Step8(Step8(Step8(Step8(MixIn(c, w[0], w[1], w[2], w[3])))));
      { RunFour(c, w); }
      Run(c, w);
      Run(c, v);
      { RunFour(c, v); }
      Step8(Step8(Step8(Step8(MixIn(c, v[0], v[1], v[2], v[3])))));
    }
    FourfoldInjective(MixIn(c, w[0], w[1], w[2], w[3]), MixIn(c, v[0], v[1], v[2], v[3]));
  }

  lemma SameWord(c: bv32, b0: Byte, b1: Byte, b2: Byte, b3: Byte, d0: Byte, d1: Byte, d2: Byte, d3: Byte)
    requires MixIn(c, b0, b1, b2, b3) == MixIn(c, d0, d1, d2, d3)
    ensures Word(b0, b1, b2, b3) == Word(d0, d1, d2, d3)
  {
    calc {
      Xor(c, Word(b0, b1, b2, b3));
      { MixInWord(c, b0, b1, b2, b3); }
      MixIn(c, b0, b1, b2, b3);
      MixIn(c, d0, d1, d2, d3);
      { MixInWord(c, d0, d1, d2, d3); }
      Xor(c, Word(d0, d1, d2, d3));
    }
    XorLeftInjective(c, Word(b0, b1, b2, b3), Word(d0, d1, d2, d3));
  }

  /** Up to four bytes are determined by what they do to the register. */
  lemma ShortInjective(c: bv32, w: Bytes, v: Bytes)
    requires |w| == |v| <= 4 && Run(c, w) == Run(c, v)
    ensures w == v
  {
    var pad: Bytes := seq(4 - |w|, _ => 0);
    RunConcat(c, w, pad);
    RunConcat(c, v, pad);
    FourInjective(c, w + pad, v + pad);
    assert w == (w + pad)[..|w|] && v == (v + pad)[..|v|];
  }

  lemma DifferentCrc(p: Bytes, q: Bytes, i: nat, k: nat)
    requires |p| == |q| && p != q && i + k <= |p| && k <= 4
    requires p[..i] == q[..i] && p[i + k..] == q[i + k..]
    ensures Crc(p) != Crc(q)
  {
    var pre, post := p[..i], p[i + k..];
    var w, v := p[i..i + k], q[i..i + k];
    assert p == (pre + w) + post && q == (pre + v) + post;
    if Crc(p) == Crc(q) {
      XorInjective(Run(ONES, p), Run(ONES, q), ONES);
      RunConcat(ONES, pre + w, post);
      RunConcat(ONES, pre + v, post);
      RunInjective(Run(ONES, pre + w), Run(ONES, pre + v), post);
      RunConcat(ONES, pre, w);
      RunConcat(ONES, pre, v);
      ShortInjective(Run(ONES, pre), w, v);
      assert false;
    }
  }

  /** Any change confined to four consecutive payload bytes of an accepted frame makes it
      rejected. */
  lemma BurstRejected(frame: Bytes, bad: Bytes, i: nat, k: nat)
    requires Open(frame).Returned?
    requires |bad| == |frame| && bad != frame && k <= 4 && i + k <= |frame| - 4
    requires bad[..i] == frame[..i] && bad[i + k..] == frame[i + k..]
    ensures Open(bad) == Threw(CrcMismatch)
  {
    var n := |frame| - 4;
    var p, q := frame[..n], bad[..n];
    forall j | i + k <= j < |frame| ensures bad[j] == frame[j] {
      assert bad[i + k..][j - i - k] == frame[i + k..][j - i - k];
    }
    forall j | 0 <= j < i ensures bad[j] == frame[j] {
      assert bad[..i][j] == frame[..i][j];
    }
    assert p[..i] == q[..i] && p[i + k..] == q[i + k..];
    assert frame[n..] == bad[n..];
    assert frame == p + frame[n..] && bad == q + bad[n..];
    DifferentCrc(p, q, i, k);
  }

  /** Any change confined to the trailer of an accepted frame makes it rejected. */
  lemma TrailerChangeRejected(frame: Bytes, bad: Bytes)
    requires Open(frame).Returned?
    requires |bad| == |frame| && bad != frame && bad[..|frame| - 4] == frame[..|frame| - 4]
    ensures Open(bad) == Threw(CrcMismatch)
  {
    if Open(bad).Returned? {
      OpenedIsSealed(frame);
      OpenedIsSealed(bad);
      assert false;
    }
  }
}
