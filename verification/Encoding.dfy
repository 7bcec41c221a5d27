/** Fixed-width numbers as bytes, in both byte orders. */
module Encoding {
  import opened Types

  function Pow256(n: nat): (p: nat)
    ensures p > 0
  {
    if n == 0 then 1 else 256 * Pow256(n - 1)
  }

  /** `n` bytes of `v`, least significant first. */
  function LE(v: nat, n: nat): (s: Bytes)
    ensures |s| == n
  {
    if n == 0 then [] else [(v % 256) as Byte] + LE(v / 256, n - 1)
  }

  /** `n` bytes of `v`, most significant first. */
  function BE(v: nat, n: nat): (s: Bytes)
    ensures |s| == n
  {
    if n == 0 then [] else BE(v / 256, n - 1) + [(v % 256) as Byte]
  }

  function FromLE(s: Bytes): nat {
    if s == [] then 0 else s[0] as nat + 256 * FromLE(s[1..])
  }

  function FromBE(s: Bytes): nat {
    if s == [] then 0 else 256 * FromBE(s[..|s| - 1]) + s[|s| - 1] as nat
  }

  function Val(b: Byte): nat { b as nat }

  lemma {:induction false} SomeByte(v: nat)
    requires v < 256
    ensures exists b :: Val(b) == v
  {
    if v == 0 {
      assert Val(0) == 0;
    } else {
      SomeByte(v - 1);
      var b :| Val(b) == v - 1;
      assert Val(b + 1) == v;
    }
  }

  lemma ByteOfNat(v: nat)
    requires v < 256
    ensures (v as Byte) as nat == v
  {
    SomeByte(v);
    var b :| Val(b) == v;
  }

  lemma {:induction false} LERoundTrip(v: nat, n: nat)
    requires v < Pow256(n)
    ensures FromLE(LE(v, n)) == v
  {
    if n > 0 {
      var s := LE(v, n);
      assert s[1..] == LE(v / 256, n - 1);
      ByteOfNat(v % 256);
      LERoundTrip(v / 256, n - 1);
    }
  }

  lemma {:induction false} BERoundTrip(v: nat, n: nat)
    requires v < Pow256(n)
    ensures FromBE(BE(v, n)) == v
  {
    if n > 0 {
      var s := BE(v, n);
      assert s[..|s| - 1] == BE(v / 256, n - 1);
      ByteOfNat(v % 256);
      BERoundTrip(v / 256, n - 1);
    }
  }

  lemma {:induction false} FromLEBound(s: Bytes)
    ensures FromLE(s) < Pow256(|s|)
  {
    if s != [] { FromLEBound(s[1..]); }
  }

  lemma {:induction false} FromBEBound(s: Bytes)
    ensures FromBE(s) < Pow256(|s|)
  {
    if s != [] { FromBEBound(s[..|s| - 1]); }
  }

  lemma Widths()
    ensures Pow256(4) == 0x1_0000_0000
    ensures Pow256(8) == 0x1_0000_0000_0000_0000
    ensures Pow256(16) == 0x1_0000_0000_0000_0000_0000_0000_0000_0000
    ensures Pow256(32) ==
      0x1_0000_0000_0000_0000_0000_0000_0000_0000_0000_0000_0000_0000_0000_0000_0000_0000
  {
    Pow256Sum(2, 2);
    Pow256Sum(4, 4);
    Pow256Sum(8, 8);
    Pow256Sum(16, 16);
    assert Pow256(2) == 0x1_0000;
  }

  lemma {:induction false} Pow256Sum(m: nat, n: nat)
    ensures Pow256(m + n) == Pow256(m) * Pow256(n)
  {
    if m > 0 {
      Pow256Sum(m - 1, n);
      assert Pow256(m + n) == 256 * (Pow256(m - 1) * Pow256(n));
    }
  }

  lemma LittleEndian4(v: nat)
    requires v < 0x1_0000_0000
    ensures FromLE(LE(v, 4)) == v
  {
    Widths();
    LERoundTrip(v, 4);
  }

  lemma LittleEndian8(v: nat)
    requires v < 0x1_0000_0000_0000_0000
    ensures FromLE(LE(v, 8)) == v
  {
    Widths();
    LERoundTrip(v, 8);
  }

  lemma BigEndian8(v: nat)
    requires v < 0x1_0000_0000_0000_0000
    ensures FromBE(BE(v, 8)) == v
  {
    Widths();
    BERoundTrip(v, 8);
  }

  lemma BigEndian16(v: Id)
    ensures FromBE(BE(v, 16)) == v
  {
    Widths();
    BERoundTrip(v, 16);
  }

  lemma BigEndian32(v: Digest)
    ensures FromBE(BE(v, 32)) == v
  {
    Widths();
    BERoundTrip(v, 32);
  }

  // ---- single bytes ---------------------------------------------------------------------

  lemma MultipleGrows(m: nat, k: nat)
    requires m > 0 && k > 0
    ensures m * k >= m
  {
  }

  lemma QuotientIs(v: nat, m: nat, q: nat, r: nat)
    requires r < m && v == m * q + r
    ensures v / m == q
  {
    var p, t := v / m, v % m;
    assert v == m * p + t;
    assert m * (p - q) == r - t;
    if p > q { MultipleGrows(m, p - q); }
    if q > p { MultipleGrows(m, q - p); }
  }

  lemma DivideTwice(v: nat, c: nat)
    requires c > 0
    ensures v / 256 / c == v / (256 * c)
  {
    var q, s := v / 256 / c, v / 256 % c;
    assert v / 256 == c * q + s;
    assert v == 256 * (c * q) + 256 * s + v % 256;
    assert (256 * c) * q == 256 * (c * q);
    QuotientIs(v, 256 * c, q, 256 * s + v % 256);
  }

  /** The leading bytes of a big-endian number are its quotient. */
  lemma {:induction false} LeadingBytes(v: nat, n: nat, m: nat)
    requires m <= n
    ensures BE(v, n)[..m] == BE(v / Pow256(n - m), m)
  {
    if m == n {
      assert v / 1 == v;
    } else {
      LeadingBytes(v / 256, n - 1, m);
      assert BE(v, n)[..m] == BE(v / 256, n - 1)[..m];
      DivideTwice(v, Pow256(n - 1 - m));
      assert Pow256(n - m) == 256 * Pow256(n - 1 - m);
    }
  }

  /** Byte `i` of a little-endian number is its digit of weight 256^i. */
  lemma {:induction false} LittleEndianDigit(v: nat, n: nat, i: nat)
    requires i < n
    ensures LE(v, n)[i] as nat == v / Pow256(i) % 256
  {
    ByteOfNat(v % 256);
    if i > 0 {
      LittleEndianDigit(v / 256, n - 1, i - 1);
      DivideTwice(v, Pow256(i - 1));
      assert Pow256(i) == 256 * Pow256(i - 1);
    } else {
      assert v / 1 == v;
    }
  }

  /** And the big-endian bytes are the same in the other order. */
  lemma {:induction false} BigEndianReversed(v: nat, n: nat, i: nat)
    requires i < n
    ensures BE(v, n)[i] == LE(v, n)[n - 1 - i]
  {
    if i < n - 1 { BigEndianReversed(v / 256, n - 1, i); }
  }
}
