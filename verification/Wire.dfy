/**
  The wire's primitives: length-prefixed text and bytes, optional flags, and 64-bit integers
  split in two halves.
*/
module Wire {
  import opened Bytes
  import opened Doubles
  import opened Utf8
  import opened Wrappers

  /** A value and what follows it, or a protocol error. */
  datatype Parsed<T> = Got(value: T, rest: seq<byte>) | Broken

  const Half: int := 0x1_0000_0000

  predicate Fits16(t: Text) { |Encode(t)| <= 0xffff }
  predicate Fits32(t: Text) { |Encode(t)| <= 0xffff_ffff }
  predicate FitsBytes(b: seq<byte>) { |b| <= 0xffff_ffff }

  // ---------------------------------------------------------------------------
  // Writing
  // ---------------------------------------------------------------------------

  function Str16(t: Text): seq<byte>
    requires Fits16(t)
  {
    U16(|Encode(t)|) + Encode(t)
  }

  function Str32(t: Text): seq<byte>
    requires Fits32(t)
  {
    U32(|Encode(t)|) + Encode(t)
  }

  function Bytes32(b: seq<byte>): seq<byte>
    requires FitsBytes(b)
  {
    U32(|b|) + b
  }

  function U64(n: nat): (r: seq<byte>)
    requires n < Half * Half
    ensures |r| == 8
  {
    U32(n % Half) + U32(n / Half)
  }

  predicate IsI64(v: int) {
    -0x8000_0000 * Half <= v < 0x8000_0000 * Half
  }

  predicate IsSafeInteger(v: int) {
    -0x1f_ffff_ffff_ffff <= v <= 0x1f_ffff_ffff_ffff
  }

  /** Two's complement in 64 bits. */
  function I64(v: int): seq<byte>
    requires IsI64(v)
  {
    U64(if v < 0 then v + Half * Half else v)
  }

  /** The same without a wide integer: the high half floored, the low half what remains. */
  function SplitI64(v: int): (r: seq<byte>)
    requires IsI64(v)
    ensures |r| == 8
  {
    var hi := v / Half;
    U32(v - hi * Half) + U32(if hi < 0 then hi + Half else hi)
  }

  /** The fast form is the simple one for every 64-bit integer, negative ones included. */
  lemma SplitIsTwosComplement(v: int)
    requires IsI64(v)
    ensures SplitI64(v) == I64(v)
  {
    if v < 0 {
      assert (v + Half * Half) / Half == v / Half + Half;
    }
  }

  // ---------------------------------------------------------------------------
  // Reading
  // ---------------------------------------------------------------------------

  function ReadU8(b: seq<byte>): Parsed<byte> {
    if |b| < 1 then Broken else Got(b[0], b[1..])
  }

  function ReadU16(b: seq<byte>): Parsed<nat> {
    if |b| < 2 then Broken else Got(GetU16(b), b[2..])
  }

  function ReadU32(b: seq<byte>): Parsed<nat> {
    if |b| < 4 then Broken else Got(GetU32(b), b[4..])
  }

  function ReadU64(b: seq<byte>): Parsed<nat> {
    if |b| < 8 then Broken else Got(GetU32(b) + Half * GetU32(b[4..]), b[8..])
  }

  function Signed32(n: nat): int {
    if n >= 0x8000_0000 then n - Half else n
  }

  /** An i64 read as two halves, put together as doubles: the halves are exact and their sum is rounded. */
  function ReadI64(b: seq<byte>): Parsed<int> {
    if |b| < 8 then Broken else Got(Nearest(Signed32(GetU32(b[4..])) * Half + GetU32(b)), b[8..])
  }

  function ReadSlice(n: nat, b: seq<byte>): Parsed<seq<byte>> {
    if |b| < n then Broken else Got(b[..n], b[n..])
  }

  function ReadBytes16(b: seq<byte>): Parsed<seq<byte>> {
    match ReadU16(b)
    case Broken => Broken
    case Got(n, rest) => ReadSlice(n, rest)
  }

  function ReadBytes32(b: seq<byte>): Parsed<seq<byte>> {
    match ReadU32(b)
    case Broken => Broken
    case Got(n, rest) => ReadSlice(n, rest)
  }

  /** Bytes as text, or an error if they are not text. */
  function AsText(raw: Parsed<seq<byte>>): Parsed<Text> {
    match raw
    case Broken => Broken
    case Got(b, rest) =>
      match Decode(b)
      case None => Broken
      case Some(t) => Got(t, rest)
  }

  function ReadStr16(b: seq<byte>): Parsed<Text> {
    AsText(ReadBytes16(b))
  }

  function ReadStr32(b: seq<byte>): Parsed<Text> {
    AsText(ReadBytes32(b))
  }

  /** Text that is never an error. */
  function ReadLenient16(b: seq<byte>): Parsed<Text> {
    match ReadBytes16(b)
    case Broken => Broken
    case Got(raw, rest) => Got(Lenient(raw), rest)
  }

  /** A presence byte, zero or one. */
  function ReadPresent(b: seq<byte>): Parsed<bool> {
    if |b| < 1 || b[0] > 1 then Broken else Got(b[0] == 1, b[1..])
  }

  // ---------------------------------------------------------------------------
  // Round trips
  // ---------------------------------------------------------------------------

  lemma SliceRead(b: seq<byte>, rest: seq<byte>)
    ensures ReadSlice(|b|, b + rest) == Got(b, rest)
  {
    assert (b + rest)[..|b|] == b && (b + rest)[|b|..] == rest;
  }

  lemma Bytes16Read(b: seq<byte>, rest: seq<byte>)
    requires |b| <= 0xffff
    ensures ReadBytes16(U16(|b|) + b + rest) == Got(b, rest)
  {
    U16RoundTrip(|b|, b + rest);
    Associates(U16(|b|), b, rest);
    hide U16, GetU16;
    SliceRead(b, rest);
  }

  lemma Bytes32RoundTrip(b: seq<byte>, rest: seq<byte>)
    requires FitsBytes(b)
    ensures ReadBytes32(Bytes32(b) + rest) == Got(b, rest)
  {
    U32RoundTrip(|b|, b + rest);
    Associates(U32(|b|), b, rest);
    hide U32, GetU32;
    SliceRead(b, rest);
  }

  /** Text arrives as what is carried of it, for strict and lenient readers alike. */
  lemma Str16RoundTrip(t: Text, rest: seq<byte>)
    requires Fits16(t)
    ensures ReadBytes16(Str16(t) + rest) == Got(Encode(t), rest)
    ensures ReadStr16(Str16(t) + rest) == ReadLenient16(Str16(t) + rest) == Got(Carried(t), rest)
  {
    hide Encode, Decode, Lenient, Carried, ReadBytes16;
    Bytes16Read(Encode(t), rest);
    TextRoundTrip(t);
  }

  /** It arrives as it was sent if and only if it is well formed and does not begin with a byte order mark. */
  lemma Str16Exactly(t: Text, rest: seq<byte>)
    requires Fits16(t)
    ensures ReadStr16(Str16(t) + rest) == Got(t, rest) <==> Intact(t)
  {
    Str16RoundTrip(t, rest);
    CarriedExactly(t);
  }

  lemma Str32RoundTrip(t: Text, rest: seq<byte>)
    requires Fits32(t)
    ensures ReadBytes32(Str32(t) + rest) == Got(Encode(t), rest)
    ensures ReadStr32(Str32(t) + rest) == Got(Carried(t), rest)
  {
    hide Encode, Decode, Lenient, Carried, ReadBytes32;
    Bytes32RoundTrip(Encode(t), rest);
    TextRoundTrip(t);
  }

  lemma HalvesRead(lo: nat, hi: nat, rest: seq<byte>)
    requires lo < Half && hi < Half
    ensures var b := U32(lo) + U32(hi) + rest; |b| >= 8 && GetU32(b) == lo && GetU32(b[4..]) == hi && b[8..] == rest
  {
    U32RoundTrip(lo, U32(hi) + rest);
    U32RoundTrip(hi, rest);
    hide U32, GetU32;
    var b := U32(lo) + U32(hi) + rest;
    assert b == U32(lo) + (U32(hi) + rest);
    assert b[4..] == U32(hi) + rest;
    assert b[8..] == (U32(hi) + rest)[4..];
  }

  lemma U64RoundTrip(n: nat, rest: seq<byte>)
    requires n < Half * Half
    ensures ReadU64(U64(n) + rest) == Got(n, rest)
  {
    HalvesRead(n % Half, n / Half, rest);
    hide U32, GetU32;
  }

  /** What is read is the double nearest to what was written. */
  lemma I64RoundTrip(v: int, rest: seq<byte>)
    requires IsI64(v)
    ensures ReadI64(SplitI64(v) + rest) == Got(Nearest(v), rest)
  {
    hide U32, GetU32, Nearest;
    var hi := v / Half;
    var lo, top := v - hi * Half, if hi < 0 then hi + Half else hi;
    HalvesRead(lo, top, rest);
    var b := SplitI64(v) + rest;
    assert b == U32(lo) + U32(top) + rest;
    assert Signed32(top) * Half + lo == v;
  }

  /** It is what was written if and only if that is a double. */
  lemma I64ExactlyDoubles(v: int, rest: seq<byte>)
    requires IsI64(v)
    ensures ReadI64(SplitI64(v) + rest) == Got(v, rest) <==> Magnitude(v) % Unit(Magnitude(v)) == 0
    ensures ReadI64(SplitI64(v) + rest) == Got(v, rest) <==> IsDouble(v)
  {
    I64RoundTrip(v, rest);
    NearestIsExact(v);
  }

  /** So it is for every safe integer, negative ones included. */
  lemma SafeRoundTrip(v: int, rest: seq<byte>)
    requires IsSafeInteger(v)
    ensures IsI64(v) && ReadI64(SplitI64(v) + rest) == Got(v, rest)
  {
    I64RoundTrip(v, rest);
    SafeIntegersAreExact(v);
  }

  // ---------------------------------------------------------------------------
  // Putting bytes together
  // ---------------------------------------------------------------------------

  lemma Associates(a: seq<byte>, b: seq<byte>, c: seq<byte>)
    ensures (a + b) + c == a + (b + c)
  {
  }

  lemma Regroup3(before: seq<byte>, a: seq<byte>, b: seq<byte>, c: seq<byte>)
    ensures before + (a + b) + c == before + (a + (b + c))
  {
  }

  /** Replacing what was left for later. */
  lemma Patched(before: seq<byte>, blank: seq<byte>, tail: seq<byte>, b: seq<byte>)
    requires |b| == |blank|
    ensures (before + (blank + tail))[..|before|] + b + (before + (blank + tail))[|before| + |b|..] == before + (b + tail)
  {
    var all := before + (blank + tail);
    assert all[..|before|] == before && all[|before| + |b|..] == tail;
  }

  lemma Longer(before: seq<byte>, done: seq<byte>, c: byte, more: seq<byte>)
    ensures before + done + [c] == before + (done + [c])
    ensures done + ([c] + more) == done + [c] + more
  {
  }

  /** ASCII byte by byte up to the first wide character, and the encoder for the rest. */
  method WriteText(w: Writer, t: Text) returns (n: nat)
    requires w.Valid()
    modifies w, w.buf
    ensures w.Valid() && (w.buf == old(w.buf) || fresh(w.buf))
    ensures n == |Encode(t)| && w.Written() == old(w.Written()) + Encode(t)
  {
    hide Encode;
    ghost var before := w.Written();
    ghost var done: seq<byte> := [];
    assert t[0..] == t && [] + Encode(t) == Encode(t) && before + [] == before;
    n := 0;
    while n < |t| && t[n] < 0x80
      invariant 0 <= n <= |t| && w.Valid() && (w.buf == old(w.buf) || fresh(w.buf))
      invariant |done| == n && Encode(t) == done + Encode(t[n..]) && w.Written() == before + done
    {
      AsciiFirst(t[n..]);
      assert t[n..][1..] == t[n + 1..];
      Longer(before, done, t[n], Encode(t[n + 1..]));
      w.Write([t[n]]);
      done := done + [t[n]];
      n := n + 1;
    }
    if n < |t| {
      var rest := Encode(t[n..]);
      w.Write(rest);
      n := n + |rest|;
      Associates(before, done, rest);
    } else {
      NothingEncoded();
      assert t[n..] == [] && done + [] == done;
    }
  }

  /** The length goes into the space left for it. */
  method WriteUtf8(w: Writer, t: Text, wide: bool) returns (ok: bool)
    requires w.Valid()
    modifies w, w.buf
    ensures w.Valid() && (w.buf == old(w.buf) || fresh(w.buf))
    ensures ok == if wide then Fits32(t) else Fits16(t)
    ensures ok ==> w.Written() == old(w.Written()) + if wide then Str32(t) else Str16(t)
  {
    hide Encode, U16, U32;
    ghost var before := w.Written();
    var at := w.pos;
    var blank := if wide then U32(0) else U16(0);
    w.Write(blank);
    var n := WriteText(w, t);
    Associates(before, blank, Encode(t));
    if n > (if wide then 0xffff_ffff else 0xffff) {
      return false;
    }
    var len := if wide then U32(n) else U16(n);
    w.Patch(at, len);
    Patched(before, blank, Encode(t), len);
    ok := true;
  }

  lemma NothingEncoded()
    ensures Encode([]) == []
  {
  }

  method WriteStr16(w: Writer, t: Text) returns (ok: bool)
    requires w.Valid()
    modifies w, w.buf
    ensures w.Valid() && (w.buf == old(w.buf) || fresh(w.buf))
    ensures ok == Fits16(t) && (ok ==> w.Written() == old(w.Written()) + Str16(t))
  {
    ok := WriteUtf8(w, t, false);
  }

  method WriteStr32(w: Writer, t: Text) returns (ok: bool)
    requires w.Valid()
    modifies w, w.buf
    ensures w.Valid() && (w.buf == old(w.buf) || fresh(w.buf))
    ensures ok == Fits32(t) && (ok ==> w.Written() == old(w.Written()) + Str32(t))
  {
    ok := WriteUtf8(w, t, true);
  }

  method WriteBytes32(w: Writer, b: seq<byte>) returns (ok: bool)
    requires w.Valid()
    modifies w, w.buf
    ensures w.Valid() && (w.buf == old(w.buf) || fresh(w.buf))
    ensures ok == FitsBytes(b) && (ok ==> w.Written() == old(w.Written()) + Bytes32(b))
  {
    hide U32;
    if |b| > 0xffff_ffff {
      return false;
    }
    ghost var before := w.Written();
    w.Write(U32(|b|));
    w.Write(b);
    Associates(before, U32(|b|), b);
    ok := true;
  }
}
