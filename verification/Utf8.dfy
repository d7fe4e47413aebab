/**
  Text as the language has it, UTF-16 code units of which some may be lone surrogates, and its
  bytes on the wire. An encoder replaces lone surrogates; a decoder drops one byte order mark
  in front, and refuses or replaces bytes that encode nothing.
*/
module Utf8 {
  import opened Bytes
  import opened Wrappers

  /** A UTF-16 code unit. */
  type Char16 = x: int | 0 <= x < 0x1_0000

  type Text = seq<Char16>

  /** A Unicode scalar value. */
  type Point = x: int | 0 <= x < 0x11_0000 && !(0xd800 <= x < 0xe000)

  const Replacement: Char16 := 0xfffd
  const Mark: Char16 := 0xfeff
  const MarkBytes: seq<byte> := [0xef, 0xbb, 0xbf]

  predicate High(u: Char16) { 0xd800 <= u < 0xdc00 }
  predicate Low(u: Char16) { 0xdc00 <= u < 0xe000 }

  // ---------------------------------------------------------------------------
  // Encoding
  // ---------------------------------------------------------------------------

  predicate Paired(t: Text) {
    |t| >= 2 && High(t[0]) && Low(t[1])
  }

  /** The scalar values of a text, a lone surrogate read as the replacement character. */
  function Points(t: Text): seq<Point> {
    if t == [] then []
    else if Paired(t) then [0x1_0000 + (t[0] - 0xd800) * 0x400 + (t[1] - 0xdc00)] + Points(t[2..])
    else [if High(t[0]) || Low(t[0]) then Replacement else t[0]] + Points(t[1..])
  }

  function PointBytes(p: Point): (b: seq<byte>)
    ensures 1 <= |b| <= 4
  {
    if p < 0x80 then [p]
    else if p < 0x800 then [0xc0 + p / 0x40, 0x80 + p % 0x40]
    else if p < 0x1_0000 then [0xe0 + p / 0x1000, 0x80 + p / 0x40 % 0x40, 0x80 + p % 0x40]
    else [0xf0 + p / 0x4_0000, 0x80 + p / 0x1000 % 0x40, 0x80 + p / 0x40 % 0x40, 0x80 + p % 0x40]
  }

  function PointsBytes(ps: seq<Point>): seq<byte> {
    if ps == [] then [] else PointBytes(ps[0]) + PointsBytes(ps[1..])
  }

  function Encode(t: Text): seq<byte> {
    PointsBytes(Points(t))
  }

  // ---------------------------------------------------------------------------
  // Decoding
  // ---------------------------------------------------------------------------

  /** The scalar value at the front, or nothing for an error, and how many bytes it takes. */
  datatype Scanned = Scanned(point: Option<Point>, size: nat)

  predicate Within(b: seq<byte>, i: nat, lower: byte, upper: byte) {
    i < |b| && lower <= b[i] <= upper
  }

  predicate Continues(b: seq<byte>, i: nat) {
    Within(b, i, 0x80, 0xbf)
  }

  function Joined2(a: int, b: int): int { (a - 0xc0) * 0x40 + (b - 0x80) }
  function Joined3(a: int, b: int, c: int): int { (a - 0xe0) * 0x1000 + (b - 0x80) * 0x40 + (c - 0x80) }
  function Joined4(a: int, b: int, c: int, d: int): int { (a - 0xf0) * 0x4_0000 + (b - 0x80) * 0x1000 + (c - 0x80) * 0x40 + (d - 0x80) }

  /**
    One step of the decoder of the WHATWG Encoding standard: no overlong forms, no surrogates,
    nothing beyond U+10FFFF; an error takes the longest prefix that could still have been valid.
  */
  function First(b: seq<byte>): (r: Scanned)
    requires b != []
    ensures 1 <= r.size <= |b|
  {
    var c := b[0];
    if c < 0x80 then Scanned(Some(c), 1)
    else if 0xc2 <= c <= 0xdf then
      if !Continues(b, 1) then Scanned(None, 1)
      else Scanned(Some(Joined2(c, b[1])), 2)
    else if 0xe0 <= c <= 0xef then
      if !Within(b, 1, if c == 0xe0 then 0xa0 else 0x80, if c == 0xed then 0x9f else 0xbf) then Scanned(None, 1)
      else if !Continues(b, 2) then Scanned(None, 2)
      else Scanned(Some(Joined3(c, b[1], b[2])), 3)
    else if 0xf0 <= c <= 0xf4 then
      if !Within(b, 1, if c == 0xf0 then 0x90 else 0x80, if c == 0xf4 then 0x8f else 0xbf) then Scanned(None, 1)
      else if !Continues(b, 2) then Scanned(None, 2)
      else if !Continues(b, 3) then Scanned(None, 3)
      else Scanned(Some(Joined4(c, b[1], b[2], b[3])), 4)
    else Scanned(None, 1)
  }

  function Scan(b: seq<byte>): seq<Option<Point>> {
    if b == [] then [] else [First(b).point] + Scan(b[First(b).size..])
  }

  /** A scalar value as code units. */
  function Spell(p: Point): (t: Text)
    ensures 1 <= |t| <= 2
  {
    if p < 0x1_0000 then [p] else [0xd800 + (p - 0x1_0000) / 0x400, 0xdc00 + (p - 0x1_0000) % 0x400]
  }

  function SpellAll(ps: seq<Option<Point>>): Text {
    if ps == [] then []
    else Spell(if ps[0].Some? then ps[0].value else Replacement) + SpellAll(ps[1..])
  }

  /** Without the byte order mark, if there is one in front. */
  function Unmarked(b: seq<byte>): seq<byte> {
    if MarkBytes <= b then b[3..] else b
  }

  /** Errors become the replacement character. */
  function Lenient(b: seq<byte>): Text {
    SpellAll(Scan(Unmarked(b)))
  }

  predicate NoErrors(ps: seq<Option<Point>>) {
    forall i :: 0 <= i < |ps| ==> ps[i].Some?
  }

  /** Any error refuses the whole. */
  function Decode(b: seq<byte>): Option<Text> {
    if NoErrors(Scan(Unmarked(b))) then Some(Lenient(b)) else None
  }

  // ---------------------------------------------------------------------------
  // What text is at the other end
  // ---------------------------------------------------------------------------

  /** Half of a surrogate pair without the other half beside it. */
  predicate Lone(t: Text, i: nat)
    requires i < |t|
  {
    || (High(t[i]) && !(i + 1 < |t| && Low(t[i + 1])))
    || (Low(t[i]) && !(i > 0 && High(t[i - 1])))
  }

  predicate WellFormed(t: Text) {
    forall i :: 0 <= i < |t| ==> !Lone(t, i)
  }

  predicate Marked(t: Text) {
    t != [] && t[0] == Mark
  }

  function Repaired(t: Text): (r: Text)
    ensures |r| == |t| && forall i :: 0 <= i < |t| ==> r[i] == if Lone(t, i) then Replacement else t[i]
  {
    seq(|t|, i requires 0 <= i < |t| => if Lone(t, i) then Replacement else t[i])
  }

  /** What text becomes on its way: lone surrogates replaced, and one mark in front dropped. */
  function Carried(t: Text): Text {
    Repaired(if Marked(t) then t[1..] else t)
  }

  predicate Intact(t: Text) {
    WellFormed(t) && !Marked(t)
  }

  /** Text arrives as it was sent if and only if it is well formed and does not begin with the mark. */
  lemma CarriedExactly(t: Text)
    ensures Carried(t) == t <==> Intact(t)
  {
    if !Marked(t) && Carried(t) == t {
      forall i | 0 <= i < |t|
        ensures !Lone(t, i)
      {
        assert Repaired(t)[i] == t[i];
      }
    }
  }

  /** A mark in front is dropped, and nothing else. */
  lemma MarkedIsCarried(t: Text)
    requires Intact(t)
    ensures Carried(t) == t && Carried([Mark] + t) == t
  {
    CarriedExactly(t);
    assert ([Mark] + t)[1..] == t;
  }

  lemma CarriedIsWellFormed(t: Text)
    ensures WellFormed(Carried(t)) && |Carried(t)| == if Marked(t) then |t| - 1 else |t|
  {
    var u := if Marked(t) then t[1..] else t;
    var r := Repaired(u);
    forall i | 0 <= i < |r|
      ensures !Lone(r, i)
    {
      assert High(r[i]) ==> i + 1 < |u| && Low(u[i + 1]) && !Lone(u, i + 1);
      assert Low(r[i]) ==> i > 0 && High(u[i - 1]) && !Lone(u, i - 1);
    }
  }

  /** Keys that are all among what arrived of them have arrived as they were sent. */
  lemma KeysArriveIntact(keys: set<Text>)
    requires forall k :: k in keys ==> exists l :: l in keys && Carried(l) == k
    ensures forall k :: k in keys ==> Intact(k)
  {
    hide Carried, WellFormed, Marked;
    forall k | k in keys
      ensures Intact(k)
    {
      var l :| l in keys && Carried(l) == k;
      CarriedIsWellFormed(l);
      var n := Longest(keys);
      NoneMarked(keys, n, k);
    }
  }

  lemma {:induction false} Longest(keys: set<Text>) returns (n: nat)
    ensures forall k :: k in keys ==> |k| <= n
    decreases |keys|
  {
    if keys == {} {
      n := 0;
    } else {
      var k :| k in keys;
      var m := Longest(keys - {k});
      n := if |k| > m then |k| else m;
      assert forall j :: j in keys ==> j == k || j in keys - {k};
    }
  }

  /** A marked key could only have come from a longer marked key. */
  lemma {:induction false} NoneMarked(keys: set<Text>, n: nat, k: Text)
    requires forall k :: k in keys ==> |k| <= n
    requires forall k :: k in keys ==> exists l :: l in keys && Carried(l) == k
    requires k in keys
    ensures !Marked(k)
    decreases n - |k|
  {
    hide Carried;
    if Marked(k) {
      var l :| l in keys && Carried(l) == k;
      CarriedExactly(l);
      CarriedIsWellFormed(l);
      if Marked(l) {
        NoneMarked(keys, n, l);
      } else {
        UnmarkedStays(l);
      }
    }
  }

  lemma UnmarkedStays(t: Text)
    requires !Marked(t)
    ensures !Marked(Carried(t))
  {
  }

  // ---------------------------------------------------------------------------
  // Round trip
  // ---------------------------------------------------------------------------

  lemma Splits2(p: int)
    requires 0x80 <= p < 0x800
    ensures var a, b := 0xc0 + p / 0x40, 0x80 + p % 0x40; 0xc2 <= a <= 0xdf && b <= 0xbf && Joined2(a, b) == p
  {
  }

  lemma Splits3(p: int)
    requires 0x800 <= p < 0x1_0000 && !(0xd800 <= p < 0xe000)
    ensures var a, b, c := 0xe0 + p / 0x1000, 0x80 + p / 0x40 % 0x40, 0x80 + p % 0x40;
            && 0xe0 <= a <= 0xef && 0x80 <= b <= 0xbf && c <= 0xbf && Joined3(a, b, c) == p
            && (a == 0xe0 ==> 0xa0 <= b) && (a == 0xed ==> b <= 0x9f)
  {
    assert p / 0x40 / 0x40 == p / 0x1000;
  }

  lemma Splits4(p: int)
    requires 0x1_0000 <= p < 0x11_0000
    ensures var a, b, c, d := 0xf0 + p / 0x4_0000, 0x80 + p / 0x1000 % 0x40, 0x80 + p / 0x40 % 0x40, 0x80 + p % 0x40;
            && 0xf0 <= a <= 0xf4 && 0x80 <= b <= 0xbf && 0x80 <= c <= 0xbf && d <= 0xbf && Joined4(a, b, c, d) == p
            && (a == 0xf0 ==> 0x90 <= b) && (a == 0xf4 ==> b <= 0x8f)
  {
    assert p / 0x40 / 0x40 == p / 0x1000 && p / 0x1000 / 0x40 == p / 0x4_0000;
  }

  /** What was encoded is found again at the front of whatever follows it. */
  lemma PointScans(p: Point, rest: seq<byte>)
    ensures First(PointBytes(p) + rest) == Scanned(Some(p), |PointBytes(p)|)
    ensures (PointBytes(p) + rest)[|PointBytes(p)|..] == rest
  {
    var e := PointBytes(p);
    var b := e + rest;
    hide Joined2, Joined3, Joined4;
    assert forall i :: 0 <= i < |e| ==> b[i] == e[i];
    if p < 0x80 {
    } else if p < 0x800 {
      Splits2(p);
    } else if p < 0x1_0000 {
      Splits3(p);
    } else {
      Splits4(p);
    }
  }

  lemma Joins3(a: int, b: int, c: int)
    requires 0xe0 <= a <= 0xef && 0x80 <= b <= 0xbf && 0x80 <= c <= 0xbf
    ensures var p := Joined3(a, b, c);
            0xe0 + p / 0x1000 == a && 0x80 + p / 0x40 % 0x40 == b && 0x80 + p % 0x40 == c
  {
    var q := (a - 0xe0) * 0x40 + (b - 0x80);
    assert Joined3(a, b, c) == q * 0x40 + (c - 0x80);
    assert q / 0x40 == a - 0xe0;
  }

  lemma Joins4(a: int, b: int, c: int, d: int)
    requires 0xf0 <= a <= 0xf4 && 0x80 <= b <= 0xbf && 0x80 <= c <= 0xbf && 0x80 <= d <= 0xbf
    ensures var p := Joined4(a, b, c, d);
            0xf0 + p / 0x4_0000 == a && 0x80 + p / 0x1000 % 0x40 == b && 0x80 + p / 0x40 % 0x40 == c && 0x80 + p % 0x40 == d
  {
    Joins3(a - 0x10, b, c);
    var q := Joined3(a - 0x10, b, c);
    var p := Joined4(a, b, c, d);
    assert p == q * 0x40 + (d - 0x80);
    assert p / 0x40 == q && p / 0x1000 == q / 0x40 && p / 0x4_0000 == q / 0x1000;
  }

  /** What is found at the front is what it is encoded as. */
  lemma ScannedIsEncoded(b: seq<byte>)
    requires b != [] && First(b).point.Some?
    ensures b == PointBytes(First(b).point.value) + b[First(b).size..]
  {
    var p, n := First(b).point.value, First(b).size;
    FoundBytes(b);
    hide First, PointBytes;
    assert b == b[..n] + b[n..];
  }

  lemma FoundBytes(b: seq<byte>)
    requires b != [] && First(b).point.Some?
    ensures b[..First(b).size] == PointBytes(First(b).point.value)
  {
    var n := First(b).size;
    if n == 1 {
      assert b[..1] == [b[0]];
    } else if n == 2 {
      assert b[..2] == [b[0], b[1]];
    } else if n == 3 {
      Joins3(b[0], b[1], b[2]);
      assert b[..3] == [b[0], b[1], b[2]];
    } else {
      Joins4(b[0], b[1], b[2], b[3]);
      assert b[..4] == [b[0], b[1], b[2], b[3]];
    }
  }

  function Found(ps: seq<Point>): (r: seq<Option<Point>>)
    ensures |r| == |ps| && forall i :: 0 <= i < |ps| ==> r[i] == Some(ps[i])
  {
    seq(|ps|, i requires 0 <= i < |ps| => Some(ps[i]))
  }

  lemma {:induction false} EncodedScans(ps: seq<Point>)
    ensures Scan(PointsBytes(ps)) == Found(ps)
  {
    if ps != [] {
      var rest := PointsBytes(ps[1..]);
      PointScans(ps[0], rest);
      EncodedScans(ps[1..]);
      hide First, PointBytes;
      assert Found(ps) == [Some(ps[0])] + Found(ps[1..]);
    }
  }

  lemma {:induction false} SpelledIsRepaired(t: Text)
    ensures SpellAll(Found(Points(t))) == Repaired(t)
  {
    hide Points, SpellAll;
    if t == [] {
      NoPoints();
    } else {
      var n := if Paired(t) then 2 else 1;
      FirstPoint(t);
      FirstSpelled(Points(t));
      SpelledIsRepaired(t[n..]);
      RepairedFromTheFront(t);
    }
  }

  lemma NoPoints()
    ensures Points([]) == [] && SpellAll([]) == [] && PointsBytes([]) == []
  {
  }

  lemma FirstPoint(t: Text)
    requires t != []
    ensures var n := if Paired(t) then 2 else 1;
            Points(t) != [] && Points(t)[1..] == Points(t[n..]) && Spell(Points(t)[0]) == Repaired(t)[..n]
  {
    var n := if Paired(t) then 2 else 1;
    var p := Points(t)[0];
    assert Points(t) == [p] + Points(t[n..]);
    if Paired(t) {
      assert !Lone(t, 0) && !Lone(t, 1);
      assert Spell(p) == [t[0], t[1]];
      assert Repaired(t)[..2] == [t[0], t[1]];
    } else {
      assert Repaired(t)[..1] == [Repaired(t)[0]];
    }
  }

  lemma FirstSpelled(ps: seq<Point>)
    requires ps != []
    ensures SpellAll(Found(ps)) == Spell(ps[0]) + SpellAll(Found(ps[1..]))
  {
    hide Spell;
    assert Found(ps)[1..] == Found(ps[1..]);
  }

  lemma RepairedFromTheFront(t: Text)
    requires t != []
    ensures var n := if Paired(t) then 2 else 1; Repaired(t) == Repaired(t)[..n] + Repaired(t[n..])
  {
    var n := if Paired(t) then 2 else 1;
    var r, tail := Repaired(t), t[n..];
    forall i | 0 <= i < |tail|
      ensures Repaired(tail)[i] == r[n + i]
    {
      assert tail[i] == t[n + i];
      assert Lone(tail, i) == Lone(t, n + i);
    }
    assert r[n..] == Repaired(tail);
  }

  lemma MarkScans(b: seq<byte>)
    requires MarkBytes <= b
    ensures First(b) == Scanned(Some(Mark), 3)
  {
    assert b[0] == MarkBytes[0] && b[1] == MarkBytes[1] && b[2] == MarkBytes[2];
  }

  lemma MarkEncodes()
    ensures PointBytes(Mark) == MarkBytes
  {
  }

  /** The bytes begin with a mark exactly when the text does. */
  lemma MarkIsEncoded(t: Text)
    ensures MarkBytes <= Encode(t) <==> Marked(t)
    ensures Marked(t) ==> Encode(t) == MarkBytes + Encode(t[1..])
  {
    if t == [] {
      NoPoints();
    } else {
      FirstPoint(t);
      assert Points(t)[0] == Mark <==> Marked(t);
      var p, rest := Points(t)[0], PointsBytes(Points(t)[1..]);
      assert Encode(t) == PointBytes(p) + rest;
      hide First, PointBytes, Points, PointsBytes;
      PointScans(p, rest);
      MarkEncodes();
      if MarkBytes <= Encode(t) {
        MarkScans(Encode(t));
      }
    }
  }

  /** Both decoders turn encoded text into what is carried of it. */
  lemma TextRoundTrip(t: Text)
    ensures Decode(Encode(t)) == Some(Carried(t)) && Lenient(Encode(t)) == Carried(t)
  {
    MarkIsEncoded(t);
    var u := if Marked(t) then t[1..] else t;
    assert Unmarked(Encode(t)) == Encode(u);
    EncodedScans(Points(u));
    SpelledIsRepaired(u);
  }

  /** The strict decoder turns bytes back to text exactly when a writer could have sent them. */
  lemma RefusedExactly(b: seq<byte>)
    ensures Decode(b).Some? <==> exists t :: Encode(t) == b
  {
    if t :| Encode(t) == b {
      TextRoundTrip(t);
    }
    if Decode(b).Some? {
      var u := Unmarked(b);
      var ps := Values(Scan(u));
      ScannedIsPoints(u);
      var t := SpellAll(Found(ps));
      PointsOfSpelled(ps);
      if MarkBytes <= b {
        assert b == MarkBytes + u;
        var m: Text := [Mark] + t;
        assert m[1..] == t;
        MarkIsEncoded(m);
        assert Encode(m) == b;
      } else {
        assert Encode(t) == b;
      }
    }
  }

  function Values(ps: seq<Option<Point>>): (r: seq<Point>)
    requires NoErrors(ps)
    ensures |r| == |ps| && forall i :: 0 <= i < |ps| ==> Some(r[i]) == ps[i]
  {
    seq(|ps|, i requires 0 <= i < |ps| && ps[i].Some? => ps[i].value)
  }

  lemma {:induction false} ScannedIsPoints(b: seq<byte>)
    requires NoErrors(Scan(b))
    ensures PointsBytes(Values(Scan(b))) == b
    decreases |b|
  {
    if b != [] {
      var one, rest := First(b), b[First(b).size..];
      hide First, PointBytes;
      assert Scan(b) == [one.point] + Scan(rest);
      assert Scan(b)[0].Some?;
      assert Scan(b)[1..] == Scan(rest);
      assert forall i :: 0 <= i < |Scan(rest)| ==> Scan(rest)[i] == Scan(b)[i + 1];
      ScannedIsEncoded(b);
      ScannedIsPoints(rest);
      assert Values(Scan(b))[1..] == Values(Scan(rest));
    }
  }

  lemma {:induction false} PointsOfSpelled(ps: seq<Point>)
    ensures Points(SpellAll(Found(ps))) == ps
  {
    if ps != [] {
      var t, rest := Spell(ps[0]), SpellAll(Found(ps[1..]));
      FirstSpelled(ps);
      PointsOfSpelled(ps[1..]);
      SpelledPoint(ps[0], rest);
      assert ps == [ps[0]] + ps[1..];
    }
  }

  lemma SpelledPoint(p: Point, rest: Text)
    ensures Points(Spell(p) + rest) == [p] + Points(rest)
  {
    var t := Spell(p) + rest;
    if p < 0x1_0000 {
      assert t[0] == p && t[1..] == rest;
    } else {
      assert t[0] == Spell(p)[0] && t[1] == Spell(p)[1] && t[2..] == rest;
    }
  }

  // ---------------------------------------------------------------------------
  // Room, and the paths for ASCII
  // ---------------------------------------------------------------------------

  /** Three bytes a code unit are room enough. */
  lemma {:induction false} RoomSuffices(t: Text)
    ensures |Encode(t)| <= 3 * |t|
  {
    if t != [] {
      var n := if Paired(t) then 2 else 1;
      var ps := Points(t);
      assert ps == [ps[0]] + Points(t[n..]);
      RoomSuffices(t[n..]);
    }
  }

  /** An ASCII character is its own byte, whatever follows. */
  lemma AsciiFirst(t: Text)
    requires t != [] && t[0] < 0x80
    ensures Encode(t) == [t[0]] + Encode(t[1..])
  {
    var ps := Points(t);
    assert ps == [t[0]] + Points(t[1..]);
  }

  /** ASCII text is its own bytes. */
  lemma {:induction false} AsciiEncodes(t: Text)
    requires forall i :: 0 <= i < |t| ==> t[i] < 0x80
    ensures Encode(t) == t
  {
    if t == [] {
      NoPoints();
    } else {
      AsciiFirst(t);
      AsciiEncodes(t[1..]);
    }
  }

  /** Two, three and four bytes, and a lone surrogate. */
  lemma KnownEncodings()
    ensures Encode([0xe9]) == [0xc3, 0xa9] && Encode([0x20ac]) == [0xe2, 0x82, 0xac]
    ensures Encode([0xd83d, 0xde00]) == [0xf0, 0x9f, 0x98, 0x80] && Encode([0xd83d]) == [0xef, 0xbf, 0xbd]
  {
    OnePoint([0xe9]);
    OnePoint([0x20ac]);
    OnePoint([0xd83d, 0xde00]);
    OnePoint([0xd83d]);
  }

  lemma OnePoint(t: Text)
    requires (|t| == 2 && Paired(t)) || |t| == 1
    ensures |Points(t)| == 1 && Encode(t) == PointBytes(Points(t)[0])
  {
    var n := if Paired(t) then 2 else 1;
    var ps := Points(t);
    assert t[n..] == [] && Points(t[n..]) == [];
    assert ps == [ps[0]];
    assert PointsBytes(ps) == PointBytes(ps[0]) + PointsBytes(ps[1..]);
  }

  lemma {:induction false} AsciiScans(b: seq<byte>)
    requires forall i :: 0 <= i < |b| ==> b[i] < 0x80
    ensures NoErrors(Scan(b)) && SpellAll(Scan(b)) == b
  {
    if b != [] {
      AsciiScans(b[1..]);
      assert Scan(b) == [Some(b[0])] + Scan(b[1..]);
      assert Scan(b)[1..] == Scan(b[1..]);
    }
  }

  lemma AsciiHasNoMark(b: seq<byte>)
    requires forall i :: 0 <= i < |b| ==> b[i] < 0x80
    ensures Unmarked(b) == b
  {
    assert MarkBytes[0] == 0xef;
  }

  /** Short ASCII is put together character by character; anything else goes to the decoder. */
  method DecodeShort(b: seq<byte>, strict: bool) returns (t: Option<Text>)
    ensures t == if strict then Decode(b) else Some(Lenient(b))
  {
    if |b| <= 64 {
      var s: Text := [];
      var i := 0;
      while i < |b|
        invariant 0 <= i <= |b| && s == b[..i]
        invariant forall k :: 0 <= k < i ==> b[k] < 0x80
      {
        if b[i] >= 0x80 {
          return if strict then Decode(b) else Some(Lenient(b));
        }
        s := s + [b[i]];
        i := i + 1;
      }
      AsciiScans(b);
      AsciiHasNoMark(b);
      assert b[..i] == b;
      return Some(s);
    }
    t := if strict then Decode(b) else Some(Lenient(b));
  }
}
