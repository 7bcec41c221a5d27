/** Binary formats: how a value is written, how it is read back from the front of a byte
    string, and the two laws that make a format usable: what was written is read back
    whatever follows it, and a successful read does not depend on what follows. */
module Codec {
  import opened Types
  import opened Encoding
  import opened CrcFrames

  const MAX_FIELD: nat := 0x400_0000
  const MAX_NAME: nat := 4096
  const MAX_COUNT: nat := 0x10_0000
  const MAX_U32: nat := 0xffff_ffff

  /** The result of reading from the front of a byte string: a value and what remains. */
  datatype Parsed<+T> = Got(value: T, rest: Bytes) | Bad(error: Error) {
    predicate IsFailure() { Bad? }
    function PropagateFailure<U>(): Parsed<U> requires Bad? { Bad(error) }
    function Extract(): (T, Bytes) requires Got? { (value, rest) }
  }

  datatype Format<!T(!new)> = Format(put: T -> Bytes, get: Bytes -> Parsed<T>, ok: T -> bool)

  ghost predicate ReadsBack<T(!new)>(c: Format<T>, x: T, tail: Bytes) {
    c.ok(x) ==> c.get(c.put(x) + tail) == Got(x, tail)
  }

  ghost predicate Extends<T(!new)>(c: Format<T>, s: Bytes, tail: Bytes) {
    c.get(s).Got? ==> c.get(s + tail) == Got(c.get(s).value, c.get(s).rest + tail)
  }

  ghost predicate Lawful<T(!new)>(c: Format<T>) {
    && (forall x, tail :: ReadsBack(c, x, tail))
    && (forall s, tail :: Extends(c, s, tail))
  }

  // ---- primitive formats ----------------------------------------------------------------

  function Take(s: Bytes, n: nat): (r: Parsed<Bytes>)
    ensures r.Got? ==> |r.value| == n && s == r.value + r.rest
  {
    if n > |s| then Bad(Truncated) else Got(s[..n], s[n..])
  }

  lemma TakeExtends(s: Bytes, n: nat, tail: Bytes)
    ensures Take(s, n).Got? ==> Take(s + tail, n) == Got(Take(s, n).value, Take(s, n).rest + tail)
  {
    if n <= |s| {
      assert (s + tail)[..n] == s[..n];
      assert (s + tail)[n..] == s[n..] + tail;
    }
  }

  lemma TakeExact(s: Bytes, tail: Bytes)
    ensures Take(s + tail, |s|) == Got(s, tail)
  {
    assert (s + tail)[..|s|] == s && (s + tail)[|s|..] == tail;
  }

  function GetU32(s: Bytes): Parsed<U32> {
    var (b, rest) :- Take(s, 4);
    FromLEBound(b); Widths();
    Got(FromLE(b), rest)
  }

  function GetU64(s: Bytes): Parsed<U64> {
    var (b, rest) :- Take(s, 8);
    FromLEBound(b); Widths();
    Got(FromLE(b), rest)
  }

  function GetId(s: Bytes): Parsed<Id> {
    var (b, rest) :- Take(s, 16);
    FromBEBound(b); Widths();
    Got(FromBE(b), rest)
  }

  function GetDigest(s: Bytes): Parsed<Digest> {
    var (b, rest) :- Take(s, 32);
    FromBEBound(b); Widths();
    Got(FromBE(b), rest)
  }

  function PutFlag(b: bool): Bytes { if b then [1] else [0] }

  /** Any non-zero byte reads as true. */
  function GetFlag(s: Bytes): Parsed<bool> {
    var (b, rest) :- Take(s, 1);
    Got(b[0] != 0, rest)
  }

  /** Two's complement. */
  function PutI64(v: I64): Bytes { LE(if v < 0 then v + 0x1_0000_0000_0000_0000 else v, 8) }

  function GetI64(s: Bytes): Parsed<I64> {
    var (u, rest) :- GetU64(s);
    Got(ToI64(u), rest)
  }

  function PutBytes(s: Bytes): Bytes { LE(|s|, 4) + s }

  function GetBytes(s: Bytes, max: nat): Parsed<Bytes> {
    var (n, rest) :- GetU32(s);
    if n > max then Bad(TooLong) else Take(rest, n)
  }

  function U32F(): Format<U32> { Format(v => LE(v, 4), GetU32, _ => true) }
  function U64F(): Format<U64> { Format(v => LE(v, 8), GetU64, _ => true) }
  function I64F(): Format<I64> { Format(PutI64, GetI64, _ => true) }
  function IdF(): Format<Id> { Format(v => BE(v, 16), GetId, _ => true) }
  function DigestF(): Format<Digest> { Format(v => BE(v, 32), GetDigest, _ => true) }
  function FlagF(): Format<bool> { Format(PutFlag, GetFlag, _ => true) }

  /** Length-prefixed bytes: at most `wmax` written, at most `rmax` accepted. */
  function BytesF(wmax: nat, rmax: nat): Format<Bytes> {
    Format(PutBytes, s => GetBytes(s, rmax), v => |v| <= wmax)
  }

  lemma U32Law()
    ensures Lawful(U32F())
  {
    var c := U32F();
    forall x: U32, tail ensures ReadsBack(c, x, tail) {
      LittleEndian4(x);
      TakeExact(LE(x, 4), tail);
    }
    forall s, tail ensures Extends(c, s, tail) { TakeExtends(s, 4, tail); }
  }

  lemma U64Law()
    ensures Lawful(U64F())
  {
    var c := U64F();
    forall x: U64, tail ensures ReadsBack(c, x, tail) {
      LittleEndian8(x);
      TakeExact(LE(x, 8), tail);
    }
    forall s, tail ensures Extends(c, s, tail) { TakeExtends(s, 8, tail); }
  }

  lemma I64Law()
    ensures Lawful(I64F())
  {
    var c := I64F();
    forall x: I64, tail ensures ReadsBack(c, x, tail) {
      var u: nat := if x < 0 then x + 0x1_0000_0000_0000_0000 else x;
      LittleEndian8(u);
      TakeExact(LE(u, 8), tail);
    }
    forall s, tail ensures Extends(c, s, tail) { TakeExtends(s, 8, tail); }
  }

  lemma IdLaw()
    ensures Lawful(IdF())
  {
    var c := IdF();
    forall x: Id, tail ensures ReadsBack(c, x, tail) {
      BigEndian16(x);
      TakeExact(BE(x, 16), tail);
    }
    forall s, tail ensures Extends(c, s, tail) { TakeExtends(s, 16, tail); }
  }

  lemma DigestLaw()
    ensures Lawful(DigestF())
  {
    var c := DigestF();
    forall x: Digest, tail ensures ReadsBack(c, x, tail) {
      BigEndian32(x);
      TakeExact(BE(x, 32), tail);
    }
    forall s, tail ensures Extends(c, s, tail) { TakeExtends(s, 32, tail); }
  }

  lemma FlagLaw()
    ensures Lawful(FlagF())
  {
    var c := FlagF();
    forall x: bool, tail ensures ReadsBack(c, x, tail) { TakeExact(PutFlag(x), tail); }
    forall s, tail ensures Extends(c, s, tail) { TakeExtends(s, 1, tail); }
  }

  lemma BytesLaw(wmax: nat, rmax: nat)
    requires wmax <= rmax && wmax <= MAX_U32
    ensures Lawful(BytesF(wmax, rmax))
  {
    var c := BytesF(wmax, rmax);
    forall x: Bytes, tail ensures ReadsBack(c, x, tail) {
      if |x| <= wmax {
        LittleEndian4(|x|);
        assert PutBytes(x) + tail == LE(|x|, 4) + (x + tail);
        TakeExact(LE(|x|, 4), x + tail);
        TakeExact(x, tail);
      }
    }
    forall s, tail ensures Extends(c, s, tail) {
      TakeExtends(s, 4, tail);
      var h := GetU32(s);
      if h.Got? { TakeExtends(h.rest, h.value, tail); }
    }
  }

  // ---- combining formats ----------------------------------------------------------------

  function PutPair<A(!new), B(!new)>(c: Format<A>, d: Format<B>, p: (A, B)): Bytes {
    c.put(p.0) + d.put(p.1)
  }

  function GetPair<A(!new), B(!new)>(c: Format<A>, d: Format<B>, s: Bytes): Parsed<(A, B)> {
    var (a, r) :- c.get(s);
    var (b, q) :- d.get(r);
    Got((a, b), q)
  }

  /** One value, then another. */
  function Pair<A(!new), B(!new)>(c: Format<A>, d: Format<B>): Format<(A, B)> {
    Format((p: (A, B)) => PutPair(c, d, p), (s: Bytes) => GetPair(c, d, s), (p: (A, B)) => c.ok(p.0) && d.ok(p.1))
  }

  lemma PairLaw<A(!new), B(!new)>(c: Format<A>, d: Format<B>)
    requires Lawful(c) && Lawful(d)
    ensures Lawful(Pair(c, d))
  {
    var e := Pair(c, d);
    forall p: (A, B), tail ensures ReadsBack(e, p, tail) {
      assert PutPair(c, d, p) + tail == c.put(p.0) + (d.put(p.1) + tail);
      assert ReadsBack(c, p.0, d.put(p.1) + tail) && ReadsBack(d, p.1, tail);
    }
    forall s, tail ensures Extends(e, s, tail) {
      assert Extends(c, s, tail);
      if c.get(s).Got? { assert Extends(d, c.get(s).rest, tail); }
    }
  }

  function GetVia<A(!new), B(!new)>(c: Format<A>, to: A -> Outcome<B>, s: Bytes): Parsed<B> {
    var (a, r) :- c.get(s);
    match to(a)
    case Returned(b) => Got(b, r)
    case Threw(error) => Bad(error)
  }

  /** The same bytes read as another type; reading may reject. */
  function Via<A(!new), B(!new, ==)>(c: Format<A>, from: B -> A, to: A -> Outcome<B>): Format<B> {
    Format((b: B) => c.put(from(b)), (s: Bytes) => GetVia(c, to, s),
           (b: B) => c.ok(from(b)) && to(from(b)) == Returned(b))
  }

  lemma ViaLaw<A(!new), B(!new)>(c: Format<A>, from: B -> A, to: A -> Outcome<B>)
    requires Lawful(c)
    ensures Lawful(Via(c, from, to))
  {
    var e := Via(c, from, to);
    forall b: B, tail ensures ReadsBack(e, b, tail) {
      assert ReadsBack(c, from(b), tail);
    }
    forall s, tail ensures Extends(e, s, tail) {
      assert Extends(c, s, tail);
    }
  }

  function PutOption<T(!new)>(c: Format<T>, x: Option<T>): Bytes {
    match x
    case None => PutFlag(false)
    case Some(v) => PutFlag(true) + c.put(v)
  }

  function GetOption<T(!new)>(c: Format<T>, s: Bytes): Parsed<Option<T>> {
    var (present, r) :- GetFlag(s);
    if present then
      var (v, q) :- c.get(r);
      Got(Some(v), q)
    else Got(None, r)
  }

  /** A presence flag, then the value if present. */
  function OptionF<T(!new)>(c: Format<T>): Format<Option<T>> {
    Format((x: Option<T>) => PutOption(c, x), (s: Bytes) => GetOption(c, s), (x: Option<T>) => x.Some? ==> c.ok(x.value))
  }

  lemma OptionLaw<T(!new)>(c: Format<T>)
    requires Lawful(c)
    ensures Lawful(OptionF(c))
  {
    var e := OptionF(c);
    forall x: Option<T>, tail ensures ReadsBack(e, x, tail) {
      match x
      case None => TakeExact(PutFlag(false), tail);
      case Some(v) =>
        assert PutOption(c, x) + tail == PutFlag(true) + (c.put(v) + tail);
        TakeExact(PutFlag(true), c.put(v) + tail);
        assert ReadsBack(c, v, tail);
    }
    forall s, tail ensures Extends(e, s, tail) {
      TakeExtends(s, 1, tail);
      var h := GetFlag(s);
      if h.Got? { assert Extends(c, h.rest, tail); }
    }
  }

  function PutAll<T(!new)>(c: Format<T>, xs: seq<T>): Bytes {
    if xs == [] then [] else PutAll(c, xs[..|xs| - 1]) + c.put(xs[|xs| - 1])
  }

  function GetMany<T(!new)>(c: Format<T>, n: nat, s: Bytes): Parsed<seq<T>> {
    if n == 0 then Got([], s)
    else
      var (xs, r) :- GetMany(c, n - 1, s);
      var (x, q) :- c.get(r);
      Got(xs + [x], q)
  }

  function PutList<T(!new)>(c: Format<T>, xs: seq<T>): Bytes {
    LE(|xs|, 4) + PutAll(c, xs)
  }

  function GetList<T(!new)>(c: Format<T>, max: nat, s: Bytes): Parsed<seq<T>> {
    var (n, r) :- GetU32(s);
    if n > max then Bad(TooLong) else GetMany(c, n, r)
  }

  /** A count, then that many values. */
  function ListF<T(!new)>(c: Format<T>, max: nat): Format<seq<T>> {
    Format((xs: seq<T>) => PutList(c, xs), (s: Bytes) => GetList(c, max, s),
           (xs: seq<T>) => |xs| <= max && forall i :: 0 <= i < |xs| ==> c.ok(xs[i]))
  }

  lemma {:induction false} ManyReadsBack<T(!new)>(c: Format<T>, xs: seq<T>, tail: Bytes)
    requires Lawful(c) && forall i :: 0 <= i < |xs| ==> c.ok(xs[i])
    ensures GetMany(c, |xs|, PutAll(c, xs) + tail) == Got(xs, tail)
  {
    if xs == [] {
      assert PutAll(c, xs) + tail == tail;
    } else {
      var init, x := xs[..|xs| - 1], xs[|xs| - 1];
      ManyReadsBack(c, init, c.put(x) + tail);
      assert PutAll(c, xs) + tail == PutAll(c, init) + (c.put(x) + tail);
      assert ReadsBack(c, x, tail);
      assert xs == init + [x];
    }
  }

  lemma {:induction false} ManyExtends<T(!new)>(c: Format<T>, n: nat, s: Bytes, tail: Bytes)
    requires Lawful(c) && GetMany(c, n, s).Got?
    ensures GetMany(c, n, s + tail) == Got(GetMany(c, n, s).value, GetMany(c, n, s).rest + tail)
  {
    if n > 0 {
      ManyExtends(c, n - 1, s, tail);
      assert Extends(c, GetMany(c, n - 1, s).rest, tail);
    }
  }

  lemma ListLaw<T(!new)>(c: Format<T>, max: nat)
    requires Lawful(c) && max <= MAX_U32
    ensures Lawful(ListF(c, max))
  {
    var e := ListF(c, max);
    forall xs: seq<T>, tail ensures ReadsBack(e, xs, tail) {
      if e.ok(xs) {
        LittleEndian4(|xs|);
        assert PutList(c, xs) + tail == LE(|xs|, 4) + (PutAll(c, xs) + tail);
        TakeExact(LE(|xs|, 4), PutAll(c, xs) + tail);
        ManyReadsBack(c, xs, tail);
      }
    }
    forall s, tail ensures Extends(e, s, tail) {
      TakeExtends(s, 4, tail);
      var h := GetU32(s);
      if h.Got? && h.value <= max && GetMany(c, h.value, h.rest).Got? { ManyExtends(c, h.value, h.rest, tail); }
    }
  }

  // ---- values that are written but never accepted back ----------------------------------

  ghost predicate Refuses<T(!new)>(c: Format<T>, x: T, error: Error) {
    forall tail :: RefusesBefore(c, x, error, tail)
  }

  ghost predicate RefusesBefore<T(!new)>(c: Format<T>, x: T, error: Error, tail: Bytes) {
    c.get(c.put(x) + tail) == Bad(error)
  }

  lemma PairRefusesFirst<A(!new), B(!new)>(c: Format<A>, d: Format<B>, p: (A, B), error: Error)
    requires Refuses(c, p.0, error)
    ensures Refuses(Pair(c, d), p, error)
  {
    forall tail ensures RefusesBefore(Pair(c, d), p, error, tail) {
      assert PutPair(c, d, p) + tail == c.put(p.0) + (d.put(p.1) + tail);
      assert RefusesBefore(c, p.0, error, d.put(p.1) + tail);
    }
  }

  lemma PairRefusesSecond<A(!new), B(!new)>(c: Format<A>, d: Format<B>, p: (A, B), error: Error)
    requires Lawful(c) && c.ok(p.0) && Refuses(d, p.1, error)
    ensures Refuses(Pair(c, d), p, error)
  {
    forall tail ensures RefusesBefore(Pair(c, d), p, error, tail) {
      assert PutPair(c, d, p) + tail == c.put(p.0) + (d.put(p.1) + tail);
      assert ReadsBack(c, p.0, d.put(p.1) + tail) && RefusesBefore(d, p.1, error, tail);
    }
  }

  lemma ViaRefuses<A(!new), B(!new)>(c: Format<A>, from: B -> A, to: A -> Outcome<B>, b: B, error: Error)
    requires Refuses(c, from(b), error) || (Lawful(c) && c.ok(from(b)) && to(from(b)) == Threw(error))
    ensures Refuses(Via(c, from, to), b, error)
  {
    forall tail ensures RefusesBefore(Via(c, from, to), b, error, tail) {
      if Refuses(c, from(b), error) {
        assert RefusesBefore(c, from(b), error, tail);
      } else {
        assert ReadsBack(c, from(b), tail);
      }
    }
  }

  lemma {:induction false} ManyRefuses<T(!new)>(c: Format<T>, xs: seq<T>, i: nat, error: Error, tail: Bytes)
    requires Lawful(c) && i < |xs| && Refuses(c, xs[i], error)
    requires forall j :: 0 <= j < |xs| ==> c.ok(xs[j]) || Refuses(c, xs[j], error)
    ensures GetMany(c, |xs|, PutAll(c, xs) + tail) == Bad(error)
  {
    var init, x := xs[..|xs| - 1], xs[|xs| - 1];
    assert PutAll(c, xs) + tail == PutAll(c, init) + (c.put(x) + tail);
    if k :| 0 <= k < |init| && !c.ok(init[k]) {
      ManyRefuses(c, init, k, error, c.put(x) + tail);
    } else if i < |init| {
      ManyRefuses(c, init, i, error, c.put(x) + tail);
    } else {
      ManyReadsBack(c, init, c.put(x) + tail);
      assert RefusesBefore(c, x, error, tail);
    }
  }

  lemma ListRefuses<T(!new)>(c: Format<T>, max: nat, xs: seq<T>, i: nat, error: Error)
    requires Lawful(c) && |xs| <= max <= MAX_U32 && i < |xs| && Refuses(c, xs[i], error)
    requires forall j :: 0 <= j < |xs| ==> c.ok(xs[j]) || Refuses(c, xs[j], error)
    ensures Refuses(ListF(c, max), xs, error)
  {
    forall tail ensures RefusesBefore(ListF(c, max), xs, error, tail) {
      LittleEndian4(|xs|);
      assert PutList(c, xs) + tail == LE(|xs|, 4) + (PutAll(c, xs) + tail);
      TakeExact(LE(|xs|, 4), PutAll(c, xs) + tail);
      ManyRefuses(c, xs, i, error, tail);
    }
  }

  lemma DecodeRefuses<T(!new)>(c: Format<T>, x: T, error: Error)
    requires Refuses(c, x, error)
    ensures Decode(c, Seal(c.put(x))) == Threw(error)
  {
    OpenSeal(c.put(x));
    assert RefusesBefore(c, x, error, []);
    assert c.put(x) + [] == c.put(x);
  }

  // ---- whole messages -------------------------------------------------------------------

  /** Read one value and insist that nothing follows. */
  function Whole<T(!new)>(c: Format<T>, s: Bytes): Outcome<T> {
    match c.get(s)
    case Bad(error) => Threw(error)
    case Got(v, rest) => if rest == [] then Returned(v) else Threw(TrailingGarbage)
  }

  lemma WholeReadsBack<T(!new)>(c: Format<T>, x: T)
    requires Lawful(c) && c.ok(x)
    ensures Whole(c, c.put(x)) == Returned(x)
  {
    assert ReadsBack(c, x, []);
    assert c.put(x) + [] == c.put(x);
  }

  /** No accepted message is a proper prefix of another. */
  lemma PrefixFree<T(!new)>(c: Format<T>, s: Bytes, more: Bytes)
    requires Lawful(c) && more != []
    requires Whole(c, s).Returned?
    ensures Whole(c, s + more).Threw?
  {
    assert Extends(c, s, more);
  }

  /** Strip and check the CRC, then read the whole payload. */
  function Decode<T(!new)>(c: Format<T>, frame: Bytes): Outcome<T> {
    var payload :- Open(frame);
    Whole(c, payload)
  }

  lemma DecodeReadsBack<T(!new)>(c: Format<T>, x: T)
    requires Lawful(c) && c.ok(x)
    ensures Decode(c, Seal(c.put(x))) == Returned(x)
  {
    OpenSeal(c.put(x));
    WholeReadsBack(c, x);
  }

  /** Whatever the CRC says, no accepted frame can be cut short or lengthened into another
      accepted frame. */
  lemma FramesArePrefixFree<T(!new)>(c: Format<T>, frame: Bytes, more: Bytes)
    requires Lawful(c) && more != []
    requires Decode(c, frame).Returned?
    ensures Decode(c, frame + more).Threw?
  {
    var n := |frame| - 4;
    var long := frame + more;
    var payload, payload' := frame[..n], long[..|long| - 4];
    assert payload' == payload + long[n..|long| - 4];
    PrefixFree(c, payload, long[n..|long| - 4]);
  }

  lemma TruncationRejected<T(!new)>(c: Format<T>, frame: Bytes, k: nat)
    requires Lawful(c) && k < |frame| && Decode(c, frame).Returned?
    ensures Decode(c, frame[..k]).Threw?
  {
    if Decode(c, frame[..k]).Returned? {
      assert frame == frame[..k] + frame[k..];
      FramesArePrefixFree(c, frame[..k], frame[k..]);
    }
  }
}
