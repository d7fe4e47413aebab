/**
  Frames over a byte stream: many frames coalesced into one growing buffer on the way out,
  and reassembled from arbitrary chunks on the way in.

  A frame is `len u32 | kind u16 | flags u8 | stream u32 | body`, little-endian, where `len`
  counts everything after itself. The frame limit is fixed.
*/
module Framing {
  import opened Bytes
  import opened Wrappers

  const HeaderLength: nat := 11
  const MinWriteBuffer: nat := 1024
  const MaxWriteBuffer: nat := 1048576

  type u16 = x: int | 0 <= x < 0x1_0000
  type u32 = x: int | 0 <= x < 0x1_0000_0000

  datatype Frame = Frame(stream: u32, flags: byte, kind: u16, body: seq<byte>)

  // ---------------------------------------------------------------------------
  // One frame
  // ---------------------------------------------------------------------------

  function Size(f: Frame): nat {
    HeaderLength + |f.body|
  }

  function HeaderAfterLength(f: Frame): (r: seq<byte>)
    ensures |r| == 7
  {
    U16(f.kind) + [f.flags] + U32(f.stream)
  }

  function Encode(f: Frame): (r: seq<byte>)
    requires Size(f) < 0x1_0000_0000
    ensures |r| == Size(f)
  {
    U32(Size(f) - 4) + HeaderAfterLength(f) + f.body
  }

  function EncodeAll(frames: seq<Frame>): seq<byte>
    requires forall f :: f in frames ==> Size(f) < 0x1_0000_0000
  {
    if frames == [] then [] else Encode(frames[0]) + EncodeAll(frames[1..])
  }

  /** What the dispatcher reads out of one whole frame. */
  function Decode(b: seq<byte>): Frame
    requires |b| >= HeaderLength
  {
    Frame(GetU32(b[7..]), b[6], GetU16(b[4..]), b[HeaderLength..])
  }

  lemma FrameRoundTrip(f: Frame, rest: seq<byte>)
    requires Size(f) < 0x1_0000_0000
    ensures |Encode(f) + rest| >= 4 && GetU32(Encode(f) + rest) == Size(f) - 4
    ensures (Encode(f) + rest)[..Size(f)] == Encode(f) && (Encode(f) + rest)[Size(f)..] == rest
    ensures Decode(Encode(f)) == f
  {
    var b := Encode(f);
    U32RoundTrip(Size(f) - 4, HeaderAfterLength(f) + f.body);
    assert b == U32(Size(f) - 4) + (HeaderAfterLength(f) + f.body);
    assert forall k :: 0 <= k < 4 ==> (b + rest)[k] == b[k];
    assert GetU32(b + rest) == GetU32(b);
    assert b[4..] == U16(f.kind) + ([f.flags] + U32(f.stream) + f.body);
    U16RoundTrip(f.kind, [f.flags] + U32(f.stream) + f.body);
    assert b[7..] == U32(f.stream) + f.body;
    U32RoundTrip(f.stream, f.body);
  }

  // ---------------------------------------------------------------------------
  // Reading, in one pass
  // ---------------------------------------------------------------------------

  /** What dispatching a frame does to the connection. */
  datatype Reaction = GoesOn | Closes | Throws

  /** Depends on everything dispatched so far, the new frame last. */
  type React = seq<Frame> -> Reaction

  datatype Verdict = Open | ClosedByReceiver | FailedByReceiver | BadLength

  /** What has been dispatched, the bytes of a frame that is not whole yet, and how reading stands. */
  datatype Reading = Reading(frames: seq<Frame>, rest: seq<byte>, verdict: Verdict)

  predicate BadPrefix(limit: nat, b: seq<byte>)
    requires |b| >= 4
  {
    GetU32(b) < HeaderLength - 4 || GetU32(b) + 4 > limit
  }

  /** Nothing can be decided yet. */
  predicate Partial(limit: nat, b: seq<byte>) {
    |b| < 4 || (!BadPrefix(limit, b) && |b| < GetU32(b) + 4)
  }

  function Dispatch(react: React, seen: seq<Frame>, f: Frame, rest: seq<byte>): Reading {
    match react(seen + [f])
    case GoesOn => Reading(seen + [f], rest, Open)
    case Closes => Reading(seen + [f], [], ClosedByReceiver)
    case Throws => Reading(seen + [f], [], FailedByReceiver)
  }

  /** Parsing a whole byte stream at once. */
  function Parse(limit: nat, react: React, seen: seq<Frame>, b: seq<byte>): (r: Reading)
    decreases |b|
  {
    if Partial(limit, b) then Reading(seen, b, Open)
    else if BadPrefix(limit, b) then Reading(seen, [], BadLength)
    else
      var total := GetU32(b) + 4;
      var one := Dispatch(react, seen, Decode(b[..total]), b[total..]);
      if one.verdict.Open? then Parse(limit, react, one.frames, one.rest) else one
  }

  function Resume(limit: nat, react: React, r: Reading, chunk: seq<byte>): Reading {
    if r.verdict.Open? then Parse(limit, react, r.frames, r.rest + chunk) else r
  }

  lemma ParseFirst(limit: nat, react: React, seen: seq<Frame>, b: seq<byte>)
    ensures Partial(limit, b) ==> Parse(limit, react, seen, b) == Reading(seen, b, Open)
    ensures !Partial(limit, b) && BadPrefix(limit, b) ==> Parse(limit, react, seen, b) == Reading(seen, [], BadLength)
    ensures !Partial(limit, b) && !BadPrefix(limit, b) ==>
              var total := GetU32(b) + 4;
              var seen' := seen + [Decode(b[..total])];
              Parse(limit, react, seen, b) == match react(seen')
                case GoesOn => Parse(limit, react, seen', b[total..])
                case Closes => Reading(seen', [], ClosedByReceiver)
                case Throws => Reading(seen', [], FailedByReceiver)
  {
  }

  lemma {:induction false} ParseLeavesPartial(limit: nat, react: React, seen: seq<Frame>, b: seq<byte>)
    ensures Partial(limit, Parse(limit, react, seen, b).rest)
    decreases |b|
  {
    if !Partial(limit, b) && !BadPrefix(limit, b) {
      var total := GetU32(b) + 4;
      ParseLeavesPartial(limit, react, seen + [Decode(b[..total])], b[total..]);
    }
  }

  /** Parsing a stream is parsing a part of it and going on with the rest. */
  lemma {:induction false} ParseSplits(limit: nat, react: React, seen: seq<Frame>, a: seq<byte>, b: seq<byte>)
    ensures Parse(limit, react, seen, a + b) == Resume(limit, react, Parse(limit, react, seen, a), b)
    decreases |a|
  {
    ParseFirst(limit, react, seen, a);
    ParseFirst(limit, react, seen, a + b);
    if !Partial(limit, a) {
      assert (a + b)[..4] == a[..4];
      assert GetU32(a + b) == GetU32(a);
      hide Parse, GetU32, Decode;
      if !BadPrefix(limit, a) {
        var total := GetU32(a) + 4;
        assert (a + b)[..total] == a[..total] && (a + b)[total..] == a[total..] + b;
        ParseSplits(limit, react, seen + [Decode(a[..total])], a[total..], b);
      }
    }
  }

  // ---------------------------------------------------------------------------
  // Reading, chunk by chunk
  // ---------------------------------------------------------------------------

  class FrameReader {
    const limit: nat
    const react: React
    var pending: Option<array<byte>>
    var filled: nat
    var pendingTotal: nat
    var dispatched: seq<Frame>
    var verdict: Verdict

    function Footprint(): set<object>
      reads this
    {
      if pending.Some? then {pending.value} else {}
    }

    /** A partial frame is held at its full size once its length is known, and as it came before that. */
    ghost predicate Valid()
      reads this, Footprint()
    {
      pending.Some? ==>
        if pendingTotal == 0 then filled < 4 && pending.value.Length == filled
        else 4 <= filled < pendingTotal == pending.value.Length
             && !BadPrefix(limit, pending.value[..filled]) && GetU32(pending.value[..filled]) + 4 == pendingTotal
    }

    ghost function View(): Reading
      reads this, Footprint()
      requires Valid()
    {
      Reading(dispatched, if pending.Some? && verdict.Open? then pending.value[..filled] else [], verdict)
    }

    constructor (limit: nat, react: React)
      ensures Valid() && View() == Reading([], [], Open) && this.limit == limit && this.react == react && pending.None?
    {
      this.limit, this.react := limit, react;
      pending, filled, pendingTotal, dispatched, verdict := None, 0, 0, [], Open;
    }

    /** Keeps the bytes from `at` on in a buffer of the given size. */
    method Keep(buf: seq<byte>, at: nat, size: nat, total: nat)
      requires at <= |buf| && |buf| - at <= size
      modifies this
      ensures pending.Some? && fresh(pending.value) && pending.value.Length == size
      ensures pending.value[..|buf| - at] == buf[at..] && filled == |buf| - at && pendingTotal == total
      ensures dispatched == old(dispatched) && verdict == old(verdict)
    {
      var kept := new byte[size](i => if 0 <= i < |buf| - at then buf[at + i] else 0);
      assert kept[..|buf| - at] == buf[at..];
      pending, filled, pendingTotal := Some(kept), |buf| - at, total;
    }

    /** Walks the whole frames in `buf` and keeps the tail of a partial one. */
    method Consume(buf: seq<byte>)
      requires verdict.Open? && pending.None?
      modifies this
      ensures Valid() && fresh(Footprint()) && View() == Parse(limit, react, old(dispatched), buf)
    {
      hide Parse, Decode, GetU32;
      var at := 0;
      assert buf[0..] == buf;
      while |buf| - at >= 4
        invariant 0 <= at <= |buf| && verdict.Open? && pending.None?
        invariant Parse(limit, react, dispatched, buf[at..]) == Parse(limit, react, old(dispatched), buf)
      {
        ParseFirst(limit, react, dispatched, buf[at..]);
        var len := GetU32(buf[at..]);
        var total := len + 4;
        if len < HeaderLength - 4 || total > limit {
          verdict := BadLength;
          return;
        }
        if |buf| - at < total {
          Keep(buf, at, total, total);
          assert pending.value[..filled] == buf[at..];
          return;
        }
        assert buf[at..][..total] == buf[at..at + total] && buf[at..][total..] == buf[at + total..];
        dispatched := dispatched + [Decode(buf[at..at + total])];
        var reaction := react(dispatched);
        if reaction.Throws? {
          verdict := FailedByReceiver;
          return;
        }
        at := at + total;
        if reaction.Closes? {
          verdict := ClosedByReceiver;
          return;
        }
      }
      ParseFirst(limit, react, dispatched, buf[at..]);
      if at < |buf| {
        Keep(buf, at, |buf| - at, 0);
        assert pending.value[..filled] == buf[at..];
      }
    }

    /** Any chunk at all: the state after it is the state of one pass over everything received. */
    method OnData(chunk: seq<byte>)
      requires Valid() && verdict.Open?
      modifies this, Footprint()
      ensures Valid() && fresh(Footprint() - old(Footprint()))
      ensures View() == Resume(limit, react, old(View()), chunk)
      decreases |chunk|
    {
      hide Parse, GetU32;
      if pending.None? {
        assert [] + chunk == chunk;
        Consume(chunk);
        return;
      }
      ghost var before := View();
      if pendingTotal == 0 {
        var joined := pending.value[..filled] + chunk;
        pending := None;
        Consume(joined);
        return;
      }
      var take := if |chunk| < pendingTotal - filled then |chunk| else pendingTotal - filled;
      FillPending(chunk[..take]);
      assert before.rest + chunk == before.rest + chunk[..take] + chunk[take..];
      if filled < pendingTotal {
        assert chunk[..take] == chunk;
        PartialStaysPartial(limit, before.rest, chunk);
        ParseFirst(limit, react, before.frames, before.rest + chunk);
        return;
      }
      var whole := pending.value[..];
      assert whole == before.rest + chunk[..take];
      pending := None;
      Consume(whole);
      ParseSplits(limit, react, before.frames, whole, chunk[take..]);
      ParseWhole(limit, react, before.frames, whole, before.rest);
      if verdict.Open? && take < |chunk| {
        OnData(chunk[take..]);
      } else if verdict.Open? {
        assert chunk[take..] == [] && View().rest + [] == View().rest;
        ParseLeavesPartial(limit, react, before.frames, whole);
        ParseFirst(limit, react, dispatched, View().rest);
      }
    }

    /** Copies into the waiting buffer, in place. */
    method FillPending(b: seq<byte>)
      requires Valid() && pending.Some? && filled + |b| <= pending.value.Length
      modifies this`filled, pending.value
      ensures filled == old(filled) + |b|
      ensures pending.value[..filled] == old(pending.value[..filled]) + b
    {
      var target, i := pending.value, 0;
      while i < |b|
        invariant 0 <= i <= |b| && filled == old(filled) && pending == old(pending) && target == pending.value
        invariant target[..filled + i] == old(pending.value[..filled]) + b[..i]
      {
        target[filled + i] := b[i];
        i := i + 1;
        assert b[..i] == b[..i - 1] + [b[i - 1]];
      }
      assert b[..i] == b;
      filled := filled + |b|;
    }
  }

  lemma PartialStaysPartial(limit: nat, a: seq<byte>, b: seq<byte>)
    requires |a| >= 4 && !BadPrefix(limit, a) && |a| + |b| < GetU32(a) + 4
    ensures Partial(limit, a + b) && !BadPrefix(limit, a + b) && GetU32(a + b) == GetU32(a)
  {
    assert (a + b)[..4] == a[..4];
  }

  lemma ParseWhole(limit: nat, react: React, seen: seq<Frame>, whole: seq<byte>, a: seq<byte>)
    requires 4 <= |a| <= |whole| && a == whole[..|a|] && !BadPrefix(limit, a) && |whole| == GetU32(a) + 4
    ensures Parse(limit, react, seen, whole).rest == []
  {
    assert GetU32(whole) == GetU32(a);
    assert whole[|whole|..] == [];
  }

  // ---------------------------------------------------------------------------
  // Writing
  // ---------------------------------------------------------------------------

  /** A body writes in any number of parts, and may throw after them. */
  datatype Body = Body(parts: seq<seq<byte>>, throws: bool)

  function Joined(parts: seq<seq<byte>>): seq<byte> {
    if parts == [] then [] else parts[0] + Joined(parts[1..])
  }

  lemma {:induction false} JoinedSnoc(parts: seq<seq<byte>>, last: seq<byte>)
    ensures Joined(parts + [last]) == Joined(parts) + last
  {
    if parts != [] {
      assert (parts + [last])[1..] == parts[1..] + [last];
      JoinedSnoc(parts[1..], last);
    }
  }

  datatype Outcome = Sent | NotConnected | BodyThrew | TooLarge

  /** The least power of two above `n`, doubling from `p`. */
  function PowerAbove(n: nat, p: nat): (r: nat)
    requires p > 0
    ensures r > n
    decreases n + 1 - p
  {
    if p > n then p else PowerAbove(n, 2 * p)
  }

  function Min(a: nat, b: nat): nat { if a < b then a else b }
  function Max(a: nat, b: nat): nat { if a < b then b else a }

  lemma FirstEncoded(frames: seq<Frame>)
    requires frames != [] && forall g :: g in frames ==> Size(g) < 0x1_0000_0000
    ensures frames[0] in frames && forall g :: g in frames[1..] ==> g in frames
    ensures EncodeAll(frames) == Encode(frames[0]) + EncodeAll(frames[1..])
  {
    hide Encode, Size;
  }

  lemma NothingEncoded()
    ensures EncodeAll([]) == []
  {
  }

  lemma {:induction false} EncodeAllSnoc(frames: seq<Frame>, f: Frame)
    requires forall g :: g in frames + [f] ==> Size(g) < 0x1_0000_0000
    ensures forall g :: g in frames ==> Size(g) < 0x1_0000_0000
    ensures Size(f) < 0x1_0000_0000 && EncodeAll(frames + [f]) == EncodeAll(frames) + Encode(f)
  {
    hide Encode, EncodeAll, Size;
    var all := frames + [f];
    assert forall g :: g in frames ==> g in all;
    assert f in all;
    FirstEncoded(all);
    if frames == [] {
      NothingEncoded();
      assert all[0] == f && all[1..] == [];
      assert Encode(f) + [] == [] + Encode(f);
    } else {
      FirstEncoded(frames);
      assert all[1..] == frames[1..] + [f] && all[0] == frames[0];
      EncodeAllSnoc(frames[1..], f);
      assert Encode(frames[0]) + (EncodeAll(frames[1..]) + Encode(f)) == Encode(frames[0]) + EncodeAll(frames[1..]) + Encode(f);
    }
  }

  class FrameWriter {
    const limit: nat
    var w: Writer
    var flushed: seq<byte>
    var flushQueued: bool
    var closed: bool
    /** The frames written successfully so far. */
    ghost var sent: seq<Frame>

    /** Everything handed to the socket, then everything buffered, is exactly the frames sent. */
    ghost predicate Valid()
      reads this, w, w.buf
    {
      && w.Valid() && limit < 0x1_0000_0000
      && (forall f :: f in sent ==> Size(f) <= limit)
      && (!closed ==> flushed + w.Written() == EncodeAll(sent))
      && (!closed && w.pos > 0 ==> flushQueued)
    }

    constructor (limit: nat)
      requires limit < 0x1_0000_0000
      ensures Valid() && fresh(w) && fresh(w.buf) && sent == [] && flushed == [] && !closed && this.limit == limit
    {
      this.limit := limit;
      w := new Writer(MinWriteBuffer);
      flushed, flushQueued, closed, sent := [], false, false, [];
    }

    /** Lets a body write its parts. */
    static method RunBody(w: Writer, body: Body) returns (threw: bool)
      requires w.Valid()
      modifies w, w.buf
      ensures w.Valid() && (w.buf == old(w.buf) || fresh(w.buf))
      ensures threw == body.throws && w.pos == old(w.pos) + |Joined(body.parts)|
      ensures w.Written() == old(w.Written()) + Joined(body.parts)
    {
      var i := 0;
      while i < |body.parts|
        invariant 0 <= i <= |body.parts| && w.Valid() && (w.buf == old(w.buf) || fresh(w.buf))
        invariant w.Written() == old(w.Written()) + Joined(body.parts[..i])
      {
        JoinedSnoc(body.parts[..i], body.parts[i]);
        assert body.parts[..i + 1] == body.parts[..i] + [body.parts[i]];
        w.Write(body.parts[i]);
        i := i + 1;
      }
      assert body.parts[..i] == body.parts;
      threw := body.throws;
    }

    /** The frame is appended whole, or nothing of it is. */
    method WriteFrame(stream: u32, flags: byte, kind: u16, body: Body) returns (outcome: Outcome)
      requires Valid()
      modifies this, w, w.buf
      ensures Valid() && w == old(w) && (w.buf == old(w.buf) || fresh(w.buf)) && closed == old(closed) && flushed == old(flushed)
      ensures outcome == if old(closed) then NotConnected
                         else if body.throws then BodyThrew
                         else if HeaderLength + |Joined(body.parts)| > limit then TooLarge
                         else Sent
      ensures outcome == Sent ==> sent == old(sent) + [Frame(stream, flags, kind, Joined(body.parts))]
      ensures outcome != Sent ==> sent == old(sent) && w.Written() == old(w.Written())
    {
      hide Encode, EncodeAll, HeaderAfterLength;
      if closed {
        return NotConnected;
      }
      ghost var before := w.Written();
      outcome := PutFrame(w, limit, stream, flags, kind, body);
      if outcome == Sent {
        ghost var f := Frame(stream, flags, kind, Joined(body.parts));
        EncodeAllSnoc(sent, f);
        assert flushed + w.Written() == flushed + before + Encode(f);
        sent := sent + [f];
        if !flushQueued {
          flushQueued := true;
        }
      }
    }

    /** Encodes one frame at the end of the buffer, or takes back what was written of it. */
    static method PutFrame(w: Writer, limit: nat, stream: u32, flags: byte, kind: u16, body: Body) returns (outcome: Outcome)
      requires w.Valid() && limit < 0x1_0000_0000
      modifies w, w.buf
      ensures w.Valid() && (w.buf == old(w.buf) || fresh(w.buf))
      ensures outcome == if body.throws then BodyThrew else if HeaderLength + |Joined(body.parts)| > limit then TooLarge else Sent
      ensures outcome != Sent ==> w.Written() == old(w.Written())
      ensures outcome == Sent ==> w.Written() == old(w.Written()) + Encode(Frame(stream, flags, kind, Joined(body.parts)))
    {
      hide Encode, HeaderAfterLength, U32, Joined;
      var start := w.pos;
      ghost var before := w.Written();
      ghost var f := Frame(stream, flags, kind, Joined(body.parts));
      var threw := EncodeInto(w, stream, flags, kind, body);
      if threw {
        w.pos := start;
        return BodyThrew;
      }
      var size := w.pos - start;
      if size > limit {
        w.pos := start;
        return TooLarge;
      }
      ghost var tail := w.buf[start + 4..w.pos];
      w.Poke(start, U32(size - 4));
      assert w.buf[start + 4..w.pos] == tail && w.buf[..start] == before;
      Patched(before, w.buf[..], start, w.pos, f);
      outcome := Sent;
    }

    /** Header without its length, then the body; the four length bytes are left for later. */
    static method EncodeInto(w: Writer, stream: u32, flags: byte, kind: u16, body: Body) returns (threw: bool)
      requires w.Valid()
      modifies w, w.buf
      ensures w.Valid() && (w.buf == old(w.buf) || fresh(w.buf)) && threw == body.throws
      ensures w.pos == old(w.pos) + HeaderLength + |Joined(body.parts)|
      ensures w.buf[..old(w.pos)] == old(w.Written())
      ensures w.buf[old(w.pos) + 4..w.pos] == HeaderAfterLength(Frame(stream, flags, kind, Joined(body.parts))) + Joined(body.parts)
    {
      hide HeaderAfterLength, Joined;
      var start := w.pos;
      PutHeader(w, stream, flags, kind);
      assert HeaderAfterLength(Frame(stream, flags, kind, Joined(body.parts))) == HeaderAfterLength(Frame(stream, flags, kind, [])) by {
        SameHeader(Frame(stream, flags, kind, []), Joined(body.parts));
      }
      ghost var head := w.Written();
      threw := RunBody(w, body);
      ghost var all := head + Joined(body.parts);
      assert w.buf[..w.pos] == all;
      assert w.buf[..start] == all[..start] == head[..start];
      assert w.buf[start + 4..w.pos] == all[start + 4..] == head[start + 4..] + Joined(body.parts);
    }

    static method PutHeader(w: Writer, stream: u32, flags: byte, kind: u16)
      requires w.Valid()
      modifies w, w.buf
      ensures w.Valid() && (w.buf == old(w.buf) || fresh(w.buf)) && w.pos == old(w.pos) + HeaderLength
      ensures w.buf[..old(w.pos)] == old(w.Written())
      ensures w.buf[old(w.pos) + 4..w.pos] == HeaderAfterLength(Frame(stream, flags, kind, []))
    {
      hide U16, U32;
      var start := w.pos;
      w.Ensure(HeaderLength);
      w.Poke(start + 4, U16(kind));
      ghost var one := w.buf[..];
      w.Poke(start + 6, [flags]);
      ghost var two := w.buf[..];
      w.Poke(start + 7, U32(stream));
      assert two[start + 4..start + 6] == one[start + 4..start + 6];
      assert w.buf[start + 4..start + 7] == two[start + 4..start + 7] == two[start + 4..start + 6] + two[start + 6..start + 7];
      w.pos := start + HeaderLength;
      assert w.buf[start + 4..w.pos] == w.buf[start + 4..start + 7] + w.buf[start + 7..w.pos];
    }

    /** Hands everything buffered to the socket and starts a fresh buffer sized to the burst. */
    method Flush()
      requires Valid()
      modifies this
      ensures Valid() && sent == old(sent) && closed == old(closed)
      ensures w == old(w) || (fresh(w) && fresh(w.buf))
      ensures !closed ==> w.pos == 0 && flushed == EncodeAll(sent)
      ensures closed ==> flushed == old(flushed)
    {
      flushQueued := false;
      if closed || w.pos == 0 {
        return;
      }
      var out := w.buf[..w.pos];
      w := new Writer(Min(MaxWriteBuffer, Max(MinWriteBuffer, PowerAbove(|out|, 1))));
      flushed := flushed + out;
      assert flushed + w.Written() == flushed;
    }

    /** A graceful close sends what is buffered first. */
    method Shutdown(graceful: bool)
      requires Valid()
      modifies this, w
      ensures Valid() && closed && sent == old(sent) && w == old(w)
      ensures !old(closed) && graceful ==> flushed == EncodeAll(sent)
      ensures old(closed) || !graceful ==> flushed == old(flushed)
    {
      if closed {
        return;
      }
      closed := true;
      if graceful && w.pos > 0 {
        flushed := flushed + w.buf[..w.pos];
        w.pos := 0;
      }
    }
  }

  lemma SameHeader(f: Frame, body: seq<byte>)
    ensures HeaderAfterLength(f.(body := body)) == HeaderAfterLength(f)
  {
  }

  lemma Patched(before: seq<byte>, buf: seq<byte>, start: nat, end: nat, f: Frame)
    requires start + HeaderLength <= end <= |buf| && Size(f) == end - start < 0x1_0000_0000
    requires buf[..start] == before && buf[start..start + 4] == U32(Size(f) - 4)
    requires buf[start + 4..end] == HeaderAfterLength(f) + f.body
    ensures buf[..end] == before + Encode(f)
  {
    assert buf[..end] == buf[..start] + buf[start..start + 4] + buf[start + 4..end];
  }

  // ---------------------------------------------------------------------------
  // End to end
  // ---------------------------------------------------------------------------

  /** The frames a receiver gets out of a list of sent ones: all, or up to the one that ends the connection. */
  function Received(react: React, seen: seq<Frame>, frames: seq<Frame>): Reading
    decreases |frames|
  {
    if frames == [] then Reading(seen, [], Open)
    else
      var one := Dispatch(react, seen, frames[0], []);
      if one.verdict.Open? then Received(react, one.frames, frames[1..]) else one
  }

  function Feed(limit: nat, react: React, r: Reading, chunks: seq<seq<byte>>): Reading
    decreases |chunks|
  {
    if chunks == [] then r else Feed(limit, react, Resume(limit, react, r, chunks[0]), chunks[1..])
  }

  /** However a byte stream is cut, the dispatched frames and the verdict are those of one pass. */
  lemma {:induction false} ChunkingDoesNotMatter(limit: nat, react: React, seen: seq<Frame>, sofar: seq<byte>, chunks: seq<seq<byte>>)
    ensures Feed(limit, react, Parse(limit, react, seen, sofar), chunks) == Parse(limit, react, seen, sofar + Joined(chunks))
    decreases |chunks|
  {
    if chunks == [] {
      assert sofar + [] == sofar;
    } else {
      ParseSplits(limit, react, seen, sofar, chunks[0]);
      ChunkingDoesNotMatter(limit, react, seen, sofar + chunks[0], chunks[1..]);
      assert sofar + chunks[0] + Joined(chunks[1..]) == sofar + Joined(chunks);
    }
  }

  lemma {:induction false} ParseOfEncoded(limit: nat, react: React, seen: seq<Frame>, frames: seq<Frame>)
    requires limit < 0x1_0000_0000 && forall f :: f in frames ==> Size(f) <= limit
    ensures Parse(limit, react, seen, EncodeAll(frames)) == Received(react, seen, frames)
    decreases |frames|
  {
    if frames != [] {
      var f, more := frames[0], EncodeAll(frames[1..]);
      hide Encode, Decode, GetU32;
      FrameRoundTrip(f, more);
      ParseFirst(limit, react, seen, Encode(f) + more);
      assert |Encode(f) + more| == Size(f) + |more|;
      ParseOfEncoded(limit, react, seen + [f], frames[1..]);
    }
  }

  /**
    The successful frames, flushed at any points and cut into any chunks, are dispatched
    exactly, in order, up to one that ends the connection.
  */
  lemma FramesArrive(limit: nat, react: React, frames: seq<Frame>, chunks: seq<seq<byte>>)
    requires limit < 0x1_0000_0000 && (forall f :: f in frames ==> Size(f) <= limit) && Joined(chunks) == EncodeAll(frames)
    ensures Feed(limit, react, Reading([], [], Open), chunks) == Received(react, [], frames)
  {
    ParseFirst(limit, react, [], []);
    ChunkingDoesNotMatter(limit, react, [], [], chunks);
    assert [] + Joined(chunks) == Joined(chunks);
    ParseOfEncoded(limit, react, [], frames);
  }

  /** With a receiver that never ends the connection, those are all of them. */
  lemma {:induction false} AllReceived(react: React, seen: seq<Frame>, frames: seq<Frame>)
    requires forall k :: 0 < k <= |frames| ==> react(seen + frames[..k]).GoesOn?
    ensures Received(react, seen, frames) == Reading(seen + frames, [], Open)
    decreases |frames|
  {
    if frames != [] {
      assert frames[..1] == [frames[0]];
      forall k | 0 < k <= |frames[1..]|
        ensures react(seen + [frames[0]] + frames[1..][..k]).GoesOn?
      {
        assert seen + [frames[0]] + frames[1..][..k] == seen + frames[..k + 1];
      }
      AllReceived(react, seen + [frames[0]], frames[1..]);
      assert seen + [frames[0]] + frames[1..] == seen + frames;
    }
  }

  /** While only part of the bytes has arrived, the dispatched frames are a prefix of those. */
  lemma PartialArrival(limit: nat, react: React, frames: seq<Frame>, arrived: seq<byte>)
    requires limit < 0x1_0000_0000 && forall f :: f in frames ==> Size(f) <= limit
    requires arrived <= EncodeAll(frames)
    ensures Parse(limit, react, [], arrived).frames <= Received(react, [], frames).frames
    ensures Parse(limit, react, [], arrived).verdict.Open? || Parse(limit, react, [], arrived) == Received(react, [], frames)
  {
    var rest := EncodeAll(frames)[|arrived|..];
    assert arrived + rest == EncodeAll(frames);
    ParseSplits(limit, react, [], arrived, rest);
    ParseOfEncoded(limit, react, [], frames);
    var r := Parse(limit, react, [], arrived);
    ParseExtends(limit, react, r.frames, r.rest + rest);
  }

  lemma {:induction false} ParseExtends(limit: nat, react: React, seen: seq<Frame>, b: seq<byte>)
    ensures seen <= Parse(limit, react, seen, b).frames
    decreases |b|
  {
    ParseFirst(limit, react, seen, b);
    hide Parse, Decode, GetU32;
    if !Partial(limit, b) && !BadPrefix(limit, b) {
      var total := GetU32(b) + 4;
      ParseExtends(limit, react, seen + [Decode(b[..total])], b[total..]);
    }
  }

  // ---------------------------------------------------------------------------
  // Bytes that were not written by this writer
  // ---------------------------------------------------------------------------

  /** Where the fields of a frame lie. */
  lemma FrameLayout(f: Frame)
    requires Size(f) < 0x1_0000_0000
    ensures var b := Encode(f);
            && |b| == 11 + |f.body| && GetU32(b) == 7 + |f.body|
            && b[4] == f.kind % 256 && b[5] == f.kind / 256 && b[6] == f.flags
            && GetU32(b[7..11]) == f.stream && b[11..] == f.body
  {
    FrameRoundTrip(f, []);
    var b := Encode(f);
    assert b + [] == b;
    assert b[7..11] == U32(f.stream) + [];
    U32RoundTrip(f.stream, []);
  }

  /** Any bytes that have the length they say are the frame read out of them. */
  lemma DecodedEncodes(b: seq<byte>)
    requires |b| >= HeaderLength && |b| == GetU32(b) + 4
    ensures Size(Decode(b)) == |b| < 0x1_0000_0000 + 4 && (|b| < 0x1_0000_0000 ==> Encode(Decode(b)) == b)
  {
    var f := Decode(b);
    if |b| < 0x1_0000_0000 {
      SameBytes(b);
      SameBytes(b[7..]);
      assert b[4..][0] == b[4] && b[4..][1] == b[5];
      assert U16(f.kind) == [b[4], b[5]];
      assert b == b[..4] + ([b[4], b[5]] + [b[6]] + b[7..11]) + b[11..];
      assert b[7..][..4] == b[7..11];
    }
  }

  lemma SameBytes(b: seq<byte>)
    requires |b| >= 4
    ensures U32(GetU32(b)) == b[..4]
  {
    var n := GetU32(b);
    var x: int, y: int, z: int := b[1], b[2], b[3];
    assert n % 0x100 == b[0];
    assert n / 0x100 == x + 0x100 * y + 0x1_0000 * z;
    assert n / 0x1_0000 == y + 0x100 * z;
    assert n / 0x100_0000 == z;
  }

  ghost predicate AllWithin(limit: nat, frames: seq<Frame>) {
    forall i :: 0 <= i < |frames| ==> Size(frames[i]) <= limit
  }

  /** How a stream was read: whole frames within the limit, then what is left and why reading stands where it does. */
  ghost predicate ReadAs(limit: nat, react: React, seen: seq<Frame>, b: seq<byte>, more: seq<Frame>, left: seq<byte>, r: Reading)
    requires limit < 0x1_0000_0000
  {
    && AllWithin(limit, more) && (forall f :: f in more ==> Size(f) < 0x1_0000_0000)
    && b == EncodeAll(more) + left && r.frames == seen + more
    && (forall k :: 0 < k < |more| ==> react(seen + more[..k]).GoesOn?)
    && match r.verdict
       case Open => r.rest == left && Partial(limit, left) && (more != [] ==> react(seen + more).GoesOn?)
       case BadLength => |left| >= 4 && BadPrefix(limit, left) && (more != [] ==> react(seen + more).GoesOn?)
       case ClosedByReceiver => more != [] && react(seen + more).Closes?
       case FailedByReceiver => more != [] && react(seen + more).Throws?
  }

  lemma OneMoreRead(limit: nat, react: React, seen: seq<Frame>, b: seq<byte>, f: Frame, tail: seq<byte>, more: seq<Frame>, left: seq<byte>, r: Reading)
    requires limit < 0x1_0000_0000 && Size(f) <= limit && b == Encode(f) + tail && react(seen + [f]).GoesOn?
    requires ReadAs(limit, react, seen + [f], tail, more, left, r)
    ensures ReadAs(limit, react, seen, b, [f] + more, left, r)
  {
    hide Encode;
    var all := [f] + more;
    assert all[1..] == more && seen + all == seen + [f] + more;
    assert EncodeAll(all) == Encode(f) + EncodeAll(more);
    assert Encode(f) + (EncodeAll(more) + left) == Encode(f) + EncodeAll(more) + left;
    forall k | 0 < k < |all|
      ensures react(seen + all[..k]).GoesOn?
    {
      assert all[..k] == [f] + more[..k - 1];
      assert seen + all[..k] == seen + [f] + more[..k - 1];
      if k == 1 {
        assert more[..0] == [] && seen + [f] + [] == seen + [f];
      }
    }
    if more == [] {
      assert seen + [f] + [] == seen + [f];
    }
  }

  lemma LastRead(limit: nat, react: React, seen: seq<Frame>, b: seq<byte>, f: Frame, tail: seq<byte>, r: Reading)
    requires limit < 0x1_0000_0000 && Size(f) <= limit && b == Encode(f) + tail && !react(seen + [f]).GoesOn?
    requires r == Reading(seen + [f], [], if react(seen + [f]).Closes? then ClosedByReceiver else FailedByReceiver)
    ensures ReadAs(limit, react, seen, b, [f], tail, r)
  {
    assert [f][1..] == [];
    assert EncodeAll([f]) == Encode(f) + EncodeAll([]);
  }

  /**
    Whatever bytes arrive: what has been dispatched is, encoded again, exactly the bytes read; no
    frame exceeds the limit; reading stops for a length that is too small or too large, or because
    the receiver says so, and for nothing else; what is left otherwise is part of a frame.
  */
  lemma {:induction false} ParsedIsWhatCame(limit: nat, react: React, seen: seq<Frame>, b: seq<byte>) returns (more: seq<Frame>, left: seq<byte>)
    requires limit < 0x1_0000_0000
    ensures ReadAs(limit, react, seen, b, more, left, Parse(limit, react, seen, b))
    decreases |b|
  {
    hide Parse, ReadAs, Encode, Decode, GetU32;
    ParseFirst(limit, react, seen, b);
    if Partial(limit, b) || BadPrefix(limit, b) {
      more, left := [], b;
      NothingRead(limit, react, seen, b, Parse(limit, react, seen, b));
    } else {
      var total := GetU32(b) + 4;
      var f, tail := Decode(b[..total]), b[total..];
      FirstFrame(limit, b);
      if react(seen + [f]).GoesOn? {
        var ms, rest := ParsedIsWhatCame(limit, react, seen + [f], tail);
        more, left := [f] + ms, rest;
        OneMoreRead(limit, react, seen, b, f, tail, ms, rest, Parse(limit, react, seen, b));
      } else {
        more, left := [f], tail;
        LastRead(limit, react, seen, b, f, tail, Parse(limit, react, seen, b));
      }
    }
  }

  lemma NothingRead(limit: nat, react: React, seen: seq<Frame>, b: seq<byte>, r: Reading)
    requires limit < 0x1_0000_0000
    requires (Partial(limit, b) && r == Reading(seen, b, Open)) || (!Partial(limit, b) && BadPrefix(limit, b) && r == Reading(seen, [], BadLength))
    ensures ReadAs(limit, react, seen, b, [], b, r)
  {
    assert seen + [] == seen && EncodeAll([]) + b == b;
  }

  lemma FirstFrame(limit: nat, b: seq<byte>)
    requires limit < 0x1_0000_0000 && !Partial(limit, b) && !BadPrefix(limit, b)
    ensures var total := GetU32(b) + 4;
            && HeaderLength <= total <= |b| && Size(Decode(b[..total])) <= limit && b == Encode(Decode(b[..total])) + b[total..]
  {
    var total := GetU32(b) + 4;
    assert GetU32(b[..total]) == GetU32(b);
    DecodedEncodes(b[..total]);
    assert b == b[..total] + b[total..];
  }
}
