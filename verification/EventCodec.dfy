/**
  Events on the native wire: records with back-patched lengths and counts on the way out,
  and on the way in one eager reader, one lazy batch and one reader with a floor, all
  stepping over records that are not events.

  A payload stands as the serializer's bytes; what matters of the serializer is which payloads
  it refuses.
*/
module EventCodec {
  import opened Bytes
  import opened Names
  import opened Objects
  import opened Utf8
  import opened Wire
  import opened Wrappers

  type Pair = Field<Text>

  /** An event's qualified name. */
  type Title = Name<Char16>

  const Dot: Char16 := 0x2e

  function FullName(n: Title): Text {
    Joined(n, Dot)
  }

  /** Whether the serializer makes something of payload bytes, given their type and revision. */
  type Accepts = (seq<byte>, Text, Text) -> bool

  /** A metadata value is its text form; null and undefined are `None`. */
  datatype Entry = Entry(key: Text, value: Option<Text>)

  datatype Event = Event(identifier: Text, name: Title, version: Text, timestamp: int,
                         metadata: seq<Entry>, tags: seq<Pair>, data: seq<byte>)

  /** An event as read. */
  datatype Message = Message(identifier: Text, name: Title, version: Text, timestamp: int,
                             metadata: map<Text, Text>, tags: seq<Pair>, data: seq<byte>)

  datatype Sequenced = Sequenced(sequence: nat, event: Message)

  /** The key `__proto__`: assigning text to it on a plain object has no effect. */
  const Proto: Text := [0x5f, 0x5f, 0x70, 0x72, 0x6f, 0x74, 0x6f, 0x5f, 0x5f]

  // ---------------------------------------------------------------------------
  // Layout
  // ---------------------------------------------------------------------------

  predicate PairFits(p: Pair) {
    Fits16(p.key) && Fits16(p.value)
  }

  ghost predicate AllFit(ps: seq<Pair>) {
    forall i :: 0 <= i < |ps| ==> PairFits(ps[i])
  }

  ghost predicate PairsFit(ps: seq<Pair>) {
    |ps| <= 0xffff && AllFit(ps)
  }

  function Pairs(ps: seq<Pair>): seq<byte>
    requires AllFit(ps)
  {
    if ps == [] then [] else
      assert PairFits(ps[0]);
      Str16(ps[0].key) + Str16(ps[0].value) + Pairs(ps[1..])
  }

  /** Null values are not sent. */
  function Present(metadata: seq<Entry>): seq<Pair> {
    if metadata == [] then []
    else (if metadata[0].value.Some? then [Field(metadata[0].key, metadata[0].value.value)] else []) + Present(metadata[1..])
  }

  /** What a plain object has after assigning the pairs to it one after another. */
  function Assigned(ps: seq<Pair>): map<Text, Text> {
    if ps == [] then map[]
    else
      var o, last := Assigned(ps[..|ps| - 1]), ps[|ps| - 1];
      if last.key == Proto then o else o[last.key := last.value]
  }

  ghost predicate Fits(e: Event) {
    && Fits16(e.identifier) && Fits16(FullName(e.name)) && Fits16(e.version) && IsSafeInteger(e.timestamp)
    && PairsFit(Present(e.metadata)) && PairsFit(e.tags) && FitsBytes(e.data)
  }

  function List16(ps: seq<Pair>): seq<byte>
    requires PairsFit(ps)
  {
    U16(|ps|) + Pairs(ps)
  }

  function Head(e: Event): seq<byte>
    requires Fits(e)
  {
    Str16(e.identifier) + (Str16(FullName(e.name)) + (Str16(e.version) + SplitI64(e.timestamp)))
  }

  /** Identifier through payload. */
  function Body(e: Event): seq<byte>
    requires Fits(e)
  {
    Head(e) + (List16(Present(e.metadata)) + (List16(e.tags) + Bytes32(e.data)))
  }

  /** `len u32 | flags u8 | position u64 | body`, an event when the flags are zero; the length wraps at 32 bits. */
  function Record(position: nat, e: Event): seq<byte>
    requires Fits(e) && position < Half * Half
  {
    U32((9 + |Body(e)|) % Half) + ([0] + (U64(position) + Body(e)))
  }

  function CarriedPairs(ps: seq<Pair>): (r: seq<Pair>)
    ensures |r| == |ps| && forall i :: 0 <= i < |ps| ==> r[i] == Field(Carried(ps[i].key), Carried(ps[i].value))
  {
    seq(|ps|, i requires 0 <= i < |ps| => Field(Carried(ps[i].key), Carried(ps[i].value)))
  }

  /** What a reader makes of an event. */
  function Normal(e: Event): Message {
    Message(Carried(e.identifier), Split(Carried(FullName(e.name)), Dot), Carried(e.version), e.timestamp,
            Assigned(CarriedPairs(Present(e.metadata))), CarriedPairs(e.tags), e.data)
  }

  /** The serializer is asked about a payload only if there is one. */
  predicate Accepted(accepts: Accepts, e: Event) {
    e.data == [] || accepts(e.data, Carried(FullName(e.name)), Carried(e.version))
  }

  /** Assigning loses `__proto__` and nothing else. */
  lemma {:induction false} AssignedLosesProto(ps: seq<Pair>)
    ensures Assigned(ps) == AsObject(ps) - {Proto}
    ensures Assigned(ps) == AsObject(ps) <==> forall i :: 0 <= i < |ps| ==> ps[i].key != Proto
    decreases |ps|
  {
    if ps != [] {
      var n := |ps| - 1;
      AssignedLosesProto(ps[..n]);
      var o, last := AsObject(ps[..n]), ps[n];
      assert last.key == Proto ==> o[last.key := last.value] - {Proto} == o - {Proto};
      assert last.key != Proto ==> o[last.key := last.value] - {Proto} == (o - {Proto})[last.key := last.value];
    }
    ObjectKeys(ps, Proto);
    assert Assigned(ps) == AsObject(ps) <==> Proto !in AsObject(ps);
  }

  // ---------------------------------------------------------------------------
  // Reading
  // ---------------------------------------------------------------------------

  /** Tag text is read leniently, everything else strictly. */
  function ReadText16(b: seq<byte>, strict: bool): Parsed<Text> {
    if strict then ReadStr16(b) else ReadLenient16(b)
  }

  function ReadPair(b: seq<byte>, strict: bool): Parsed<Pair> {
    match ReadText16(b, strict)
    case Broken => Broken
    case Got(key, rest) =>
      match ReadText16(rest, strict)
      case Broken => Broken
      case Got(value, after) => Got(Field(key, value), after)
  }

  function ReadPairs(n: nat, b: seq<byte>, strict: bool): Parsed<seq<Pair>> {
    if n == 0 then Got([], b)
    else match ReadPair(b, strict)
      case Broken => Broken
      case Got(p, rest) =>
        match ReadPairs(n - 1, rest, strict)
        case Broken => Broken
        case Got(more, after) => Got([p] + more, after)
  }

  function ReadList16(b: seq<byte>, strict: bool): Parsed<seq<Pair>> {
    match ReadU16(b)
    case Broken => Broken
    case Got(n, rest) => ReadPairs(n, rest, strict)
  }

  datatype Header = Header(identifier: Text, name: Text, version: Text, timestamp: int)

  function ReadHead(b: seq<byte>): Parsed<Header> {
    match ReadStr16(b) case Broken => Broken case Got(identifier, b1) =>
    match ReadStr16(b1) case Broken => Broken case Got(name, b2) =>
    match ReadStr16(b2) case Broken => Broken case Got(version, b3) =>
    match ReadI64(b3) case Broken => Broken case Got(timestamp, b4) =>
    Got(Header(identifier, name, version, timestamp), b4)
  }

  function ReadBody(accepts: Accepts, b: seq<byte>): Parsed<Message> {
    match ReadHead(b) case Broken => Broken case Got(h, b1) =>
    match ReadList16(b1, true) case Broken => Broken case Got(metadata, b2) =>
    match ReadList16(b2, false) case Broken => Broken case Got(tags, b3) =>
    match ReadBytes32(b3) case Broken => Broken case Got(data, b4) =>
    if data != [] && !accepts(data, h.name, h.version) then Broken
    else Got(Message(h.identifier, Split(h.name, Dot), h.version, h.timestamp, Assigned(metadata), tags, data), b4)
  }

  /** The position of the record after its flags; unread unless somebody asks. */
  function ReadPosition(b: seq<byte>, asked: bool): Parsed<nat> {
    if asked then ReadU64(b) else if |b| < 8 then Broken else Got(0, b[8..])
  }

  /**
    One record: the event, or nothing for a record that is not an event or lies below the
    floor. The body is bounded by the frame, and has to end where the record ends.
  */
  function ReadRecord(accepts: Accepts, b: seq<byte>, sequenced: bool, floor: Option<nat>): Parsed<Option<Sequenced>> {
    match ReadU32(b) case Broken => Broken case Got(len, b1) =>
    if len == 0 || len > |b1| then Broken else ReadAfterLength(accepts, b1, len, sequenced, floor)
  }

  function ReadAfterLength(accepts: Accepts, b: seq<byte>, len: nat, sequenced: bool, floor: Option<nat>): Parsed<Option<Sequenced>>
    requires 0 < len <= |b|
  {
    if b[0] != 0 then Got(None, b[len..])
    else
      match ReadPosition(b[1..], sequenced || floor.Some?) case Broken => Broken case Got(sequence, b1) =>
      if floor.Some? && sequence < floor.value then Got(None, b[len..])
      else
        match ReadBody(accepts, b1) case Broken => Broken case Got(event, b2) =>
        if |b2| != |b| - len then Broken else Got(Some(Sequenced(sequence, event)), b[len..])
  }

  /** The events read, what is left, and whether reading stopped at a protocol error. */
  datatype Batch = Batch(events: seq<Sequenced>, rest: seq<byte>, broken: bool)

  function ReadRecords(accepts: Accepts, n: nat, b: seq<byte>, sequenced: bool, floor: Option<nat>): Batch {
    if n == 0 then Batch([], b, false)
    else match ReadRecord(accepts, b, sequenced, floor)
      case Broken => Batch([], b, true)
      case Got(one, rest) =>
        var more := ReadRecords(accepts, n - 1, rest, sequenced, floor);
        if one.Some? then Prepend(one.value, more) else more
  }

  // ---------------------------------------------------------------------------
  // Round trip
  // ---------------------------------------------------------------------------

  lemma FirstPair(ps: seq<Pair>)
    requires AllFit(ps) && ps != []
    ensures PairFits(ps[0]) && AllFit(ps[1..]) && Pairs(ps) == Str16(ps[0].key) + Str16(ps[0].value) + Pairs(ps[1..])
  {
  }

  lemma ReadFirstPair(n: nat, b: seq<byte>, strict: bool, p: Pair, rest: seq<byte>, ps: seq<Pair>, after: seq<byte>)
    requires n > 0 && ReadPair(b, strict) == Got(p, rest) && ReadPairs(n - 1, rest, strict) == Got(ps, after)
    ensures ReadPairs(n, b, strict) == Got([p] + ps, after)
  {
    hide ReadPair;
  }

  lemma {:induction false} PairsRoundTrip(ps: seq<Pair>, rest: seq<byte>, strict: bool)
    requires AllFit(ps)
    ensures ReadPairs(|ps|, Pairs(ps) + rest, strict) == Got(CarriedPairs(ps), rest)
    decreases |ps|
  {
    hide AllFit, Str16, ReadPair, Pairs, ReadPairs, PairFits, Carried;
    if ps == [] {
      NoPairs();
      ReadNoPairs(rest, strict);
      assert Pairs(ps) + rest == rest;
    } else {
      FirstPair(ps);
      var p, more := ps[0], Pairs(ps[1..]);
      var r := Field(Carried(p.key), Carried(p.value));
      PairsRoundTrip(ps[1..], rest, strict);
      PairRoundTrip(p, more + rest, strict);
      PairFitsBoth(p);
      Associates(Str16(p.key) + Str16(p.value), more, rest);
      ReadFirstPair(|ps|, Pairs(ps) + rest, strict, r, more + rest, CarriedPairs(ps[1..]), rest);
      assert CarriedPairs(ps) == [r] + CarriedPairs(ps[1..]);
    }
  }

  lemma PairFitsBoth(p: Pair)
    requires PairFits(p)
    ensures Fits16(p.key) && Fits16(p.value)
  {
  }

  lemma ReadNoPairs(b: seq<byte>, strict: bool)
    ensures ReadPairs(0, b, strict) == Got([], b)
  {
  }

  lemma PairRoundTrip(p: Pair, rest: seq<byte>, strict: bool)
    requires PairFits(p)
    ensures ReadPair(Str16(p.key) + Str16(p.value) + rest, strict) == Got(Field(Carried(p.key), Carried(p.value)), rest)
  {
    Str16RoundTrip(p.value, rest);
    Str16RoundTrip(p.key, Str16(p.value) + rest);
    hide Str16, ReadStr16, ReadLenient16, ReadBytes16, Encode, Carried, Fits16;
    Associates(Str16(p.key), Str16(p.value), rest);
  }

  lemma List16RoundTrip(ps: seq<Pair>, rest: seq<byte>, strict: bool)
    requires PairsFit(ps)
    ensures ReadList16(List16(ps) + rest, strict) == Got(CarriedPairs(ps), rest)
  {
    hide U16, GetU16, Pairs, ReadPairs, CarriedPairs, AllFit;
    PairsRoundTrip(ps, rest, strict);
    U16RoundTrip(|ps|, Pairs(ps) + rest);
    Associates(U16(|ps|), Pairs(ps), rest);
  }

  lemma HeaderRead(identifier: Text, name: Text, version: Text, timestamp: int, rest: seq<byte>)
    requires Fits16(identifier) && Fits16(name) && Fits16(version) && IsSafeInteger(timestamp)
    ensures ReadHead(Str16(identifier) + (Str16(name) + (Str16(version) + SplitI64(timestamp))) + rest) ==
            Got(Header(Carried(identifier), Carried(name), Carried(version), timestamp), rest)
  {
    hide Str16, ReadStr16, ReadLenient16, ReadBytes16, Encode, Carried, Fits16, SplitI64, ReadI64;
    var t := SplitI64(timestamp);
    SafeRoundTrip(timestamp, rest);
    Str16RoundTrip(version, t + rest);
    Str16RoundTrip(name, Str16(version) + (t + rest));
    Str16RoundTrip(identifier, Str16(name) + (Str16(version) + (t + rest)));
    Associates(Str16(identifier), Str16(name) + (Str16(version) + t), rest);
    Associates(Str16(name), Str16(version) + t, rest);
    Associates(Str16(version), t, rest);
  }

  lemma HeadRoundTrip(e: Event, rest: seq<byte>)
    requires Fits(e)
    ensures ReadHead(Head(e) + rest) == Got(Header(Carried(e.identifier), Carried(FullName(e.name)), Carried(e.version), e.timestamp), rest)
  {
    hide ReadHead, Str16, Carried, Fits16, FullName, SplitI64, PairsFit;
    HeaderRead(e.identifier, FullName(e.name), e.version, e.timestamp, rest);
  }

  lemma BodyRoundTrip(accepts: Accepts, e: Event, rest: seq<byte>)
    requires Fits(e)
    ensures ReadBody(accepts, Body(e) + rest) == if Accepted(accepts, e) then Got(Normal(e), rest) else Broken
  {
    var m, t, d := List16(Present(e.metadata)), List16(e.tags), Bytes32(e.data);
    Bytes32RoundTrip(e.data, rest);
    List16RoundTrip(e.tags, d + rest, false);
    List16RoundTrip(Present(e.metadata), t + (d + rest), true);
    HeadRoundTrip(e, m + (t + (d + rest)));
    hide Head, ReadHead, List16, ReadList16, Bytes32, ReadBytes32, Assigned, Present, PairsFit;
    hide Carried, CarriedPairs, Split, FullName, Fits16, FitsBytes;
    Associates(Head(e), m + (t + d), rest);
    Associates(m, t + d, rest);
    Associates(t, d, rest);
  }

  /** A record as a server sends it: an event at its position, or something a client does not know. */
  datatype WireRecord = Known(position: nat, event: Event) | Unknown(flags: byte, bytes: seq<byte>)

  ghost predicate Encodable(r: WireRecord) {
    match r
    case Known(position, e) => Fits(e) && position < Half * Half
    case Unknown(flags, bytes) => flags != 0 && 1 + |bytes| < Half
  }

  /** Its length has room in 32 bits, so a reader can tell where it ends. */
  ghost predicate RecordFits(r: WireRecord) {
    Encodable(r) && (r.Known? ==> 9 + |Body(r.event)| < Half)
  }

  function RecordBytes(r: WireRecord): seq<byte>
    requires Encodable(r)
  {
    match r
    case Known(position, e) => Record(position, e)
    case Unknown(flags, bytes) => U32(1 + |bytes|) + ([flags] + bytes)
  }

  function RecordsBytes(rs: seq<WireRecord>): seq<byte>
    requires forall i :: 0 <= i < |rs| ==> Encodable(rs[i])
  {
    if rs == [] then [] else RecordBytes(rs[0]) + RecordsBytes(rs[1..])
  }

  /** What a reader is to hand over of a record. */
  function Wanted(r: WireRecord, sequenced: bool, floor: Option<nat>): Option<Sequenced> {
    if r.Unknown? || (floor.Some? && r.position < floor.value) then None
    else Some(Sequenced(if sequenced || floor.Some? then r.position else 0, Normal(r.event)))
  }

  /** An event the reader wants and the serializer does not. */
  predicate Refused(accepts: Accepts, r: WireRecord, floor: Option<nat>) {
    r.Known? && !(floor.Some? && r.position < floor.value) && !Accepted(accepts, r.event)
  }

  function WantedOf(rs: seq<WireRecord>, sequenced: bool, floor: Option<nat>): seq<Sequenced> {
    if rs == [] then []
    else
      var one := Wanted(rs[0], sequenced, floor);
      (if one.Some? then [one.value] else []) + WantedOf(rs[1..], sequenced, floor)
  }

  lemma UnknownRoundTrip(accepts: Accepts, flags: byte, bytes: seq<byte>, rest: seq<byte>, sequenced: bool, floor: Option<nat>)
    requires flags != 0 && 1 + |bytes| < Half
    ensures ReadRecord(accepts, U32(1 + |bytes|) + ([flags] + bytes) + rest, sequenced, floor) == Got(None, rest)
  {
    var len := 1 + |bytes|;
    U32RoundTrip(len, [flags] + bytes + rest);
    Associates(U32(len), [flags] + bytes, rest);
    hide U32, GetU32, ReadBody, ReadPosition;
    assert ([flags] + bytes + rest)[len..] == rest;
  }

  lemma KnownRoundTrip(accepts: Accepts, position: nat, e: Event, rest: seq<byte>, sequenced: bool, floor: Option<nat>)
    requires Fits(e) && position < Half * Half && 9 + |Body(e)| < Half
    ensures ReadRecord(accepts, Record(position, e) + rest, sequenced, floor) ==
            if Refused(accepts, Known(position, e), floor) then Broken else Got(Wanted(Known(position, e), sequenced, floor), rest)
  {
    hide U32, U64, Body, ReadAfterLength, Wanted, Fits, ReadRecord, Record, Refused;
    RecordIs(position, e);
    InnerRoundTrip(accepts, position, e, rest, sequenced, floor);
    ReadFramed(accepts, 9 + |Body(e)|, [0] + (U64(position) + Body(e)), rest, sequenced, floor);
  }

  /** A record reads back if and only if its length did not wrap and the serializer does not refuse an event that is wanted. */
  lemma RecordReadsBackExactly(accepts: Accepts, position: nat, e: Event, rest: seq<byte>, sequenced: bool, floor: Option<nat>)
    requires Fits(e) && position < Half * Half
    ensures ReadRecord(accepts, Record(position, e) + rest, sequenced, floor) == Got(Wanted(Known(position, e), sequenced, floor), rest) <==>
            9 + |Body(e)| < Half && !Refused(accepts, Known(position, e), floor)
  {
    hide U32, U64, Body, Wanted, Fits, ReadRecord, ReadBody, GetU32, Refused;
    var size := 9 + |Body(e)|;
    if size < Half {
      KnownRoundTrip(accepts, position, e, rest, sequenced, floor);
    } else {
      var inner := [0] + (U64(position) + Body(e));
      WrappedLength(accepts, size % Half, size, inner, rest, sequenced, floor);
    }
  }

  lemma WrappedLength(accepts: Accepts, len: nat, size: nat, inner: seq<byte>, rest: seq<byte>, sequenced: bool, floor: Option<nat>)
    requires len < Half && len < size == |inner|
    ensures var r := ReadRecord(accepts, U32(len) + inner + rest, sequenced, floor); r.Got? ==> |r.rest| > |rest|
  {
    U32RoundTrip(len, inner + rest);
    Associates(U32(len), inner, rest);
    hide U32, GetU32, ReadBody, ReadPosition;
  }

  lemma RecordIs(position: nat, e: Event)
    requires Fits(e) && position < Half * Half && 9 + |Body(e)| < Half
    ensures Record(position, e) == U32(9 + |Body(e)|) + ([0] + (U64(position) + Body(e)))
  {
    hide U32, U64, Body, Fits;
    assert (9 + |Body(e)|) % Half == 9 + |Body(e)|;
  }

  /** The length in front says where what follows it is read. */
  lemma ReadFramed(accepts: Accepts, len: nat, inner: seq<byte>, rest: seq<byte>, sequenced: bool, floor: Option<nat>)
    requires 0 < len <= |inner| + |rest| && len < Half
    ensures ReadRecord(accepts, U32(len) + inner + rest, sequenced, floor) == ReadAfterLength(accepts, inner + rest, len, sequenced, floor)
  {
    U32RoundTrip(len, inner + rest);
    hide U32, GetU32, ReadAfterLength;
    Associates(U32(len), inner, rest);
  }

  /** What follows the length of an event: its position decides whether its body is read. */
  lemma BehindTheLength(accepts: Accepts, position: nat, body: seq<byte>, rest: seq<byte>, sequenced: bool, floor: Option<nat>)
    requires position < Half * Half
    ensures ReadAfterLength(accepts, [0] + (U64(position) + body) + rest, 9 + |body|, sequenced, floor) ==
            if floor.Some? && position < floor.value then Got(None, rest)
            else
              match ReadBody(accepts, body + rest) case Broken => Broken case Got(event, after) =>
              if |after| != |rest| then Broken
              else Got(Some(Sequenced(if sequenced || floor.Some? then position else 0, event)), rest)
  {
    hide ReadU64, U64, ReadBody, GetU32;
    var b := [0] + (U64(position) + body) + rest;
    U64RoundTrip(position, body + rest);
    Associates([0], U64(position) + body, rest);
    Associates(U64(position), body, rest);
    assert b[1..] == U64(position) + (body + rest);
    assert b[1..][8..] == body + rest;
    assert b[9 + |body|..] == rest;
  }

  lemma InnerRoundTrip(accepts: Accepts, position: nat, e: Event, rest: seq<byte>, sequenced: bool, floor: Option<nat>)
    requires Fits(e) && position < Half * Half
    ensures ReadAfterLength(accepts, [0] + (U64(position) + Body(e)) + rest, 9 + |Body(e)|, sequenced, floor) ==
            if Refused(accepts, Known(position, e), floor) then Broken else Got(Wanted(Known(position, e), sequenced, floor), rest)
  {
    hide ReadAfterLength, U64, Body, ReadBody, Fits, Normal, Accepted;
    BehindTheLength(accepts, position, Body(e), rest, sequenced, floor);
    BodyRoundTrip(accepts, e, rest);
  }

  /** What reading a written list comes to: its wanted events in order, up to the first that is refused. */
  function Outcome(accepts: Accepts, rs: seq<WireRecord>, rest: seq<byte>, sequenced: bool, floor: Option<nat>): Batch
    requires forall i :: 0 <= i < |rs| ==> Encodable(rs[i])
  {
    if rs == [] then Batch([], rest, false)
    else if Refused(accepts, rs[0], floor) then Batch([], RecordsBytes(rs) + rest, true)
    else
      var one, more := Wanted(rs[0], sequenced, floor), Outcome(accepts, rs[1..], rest, sequenced, floor);
      more.(events := (if one.Some? then [one.value] else []) + more.events)
  }

  lemma NoOutcome(accepts: Accepts, rest: seq<byte>, sequenced: bool, floor: Option<nat>)
    ensures Outcome(accepts, [], rest, sequenced, floor) == Batch([], rest, false)
  {
  }

  lemma FirstOutcome(accepts: Accepts, rs: seq<WireRecord>, rest: seq<byte>, sequenced: bool, floor: Option<nat>)
    requires rs != [] && forall i :: 0 <= i < |rs| ==> Encodable(rs[i])
    ensures Outcome(accepts, rs, rest, sequenced, floor) ==
            if Refused(accepts, rs[0], floor) then Batch([], RecordsBytes(rs) + rest, true)
            else
              var one, more := Wanted(rs[0], sequenced, floor), Outcome(accepts, rs[1..], rest, sequenced, floor);
              more.(events := (if one.Some? then [one.value] else []) + more.events)
  {
    hide Encodable, RecordsBytes, Wanted, Refused;
  }

  /** Everything is read, and nothing left over, if and only if no wanted event is refused. */
  lemma {:induction false} OutcomeExactly(accepts: Accepts, rs: seq<WireRecord>, rest: seq<byte>, sequenced: bool, floor: Option<nat>)
    requires forall i :: 0 <= i < |rs| ==> Encodable(rs[i])
    ensures var all := Outcome(accepts, rs, rest, sequenced, floor);
            && (all.broken <==> exists i :: 0 <= i < |rs| && Refused(accepts, rs[i], floor))
            && (!all.broken ==> all == Batch(WantedOf(rs, sequenced, floor), rest, false))
  {
    hide Encodable, RecordsBytes, Outcome, Wanted, Refused;
    if rs == [] {
      NoOutcome(accepts, rest, sequenced, floor);
    } else {
      FirstOutcome(accepts, rs, rest, sequenced, floor);
      if !Refused(accepts, rs[0], floor) {
        OutcomeExactly(accepts, rs[1..], rest, sequenced, floor);
        RefusedLater(accepts, rs, floor);
      }
    }
  }

  lemma RefusedLater(accepts: Accepts, rs: seq<WireRecord>, floor: Option<nat>)
    requires rs != [] && !Refused(accepts, rs[0], floor)
    ensures (exists i :: 0 <= i < |rs| && Refused(accepts, rs[i], floor)) <==> exists i :: 0 <= i < |rs[1..]| && Refused(accepts, rs[1..][i], floor)
  {
    hide Refused;
    if i :| 0 <= i < |rs| && Refused(accepts, rs[i], floor) {
      assert rs[1..][i - 1] == rs[i];
    }
  }

  lemma FittingIsEncodable(r: WireRecord)
    requires RecordFits(r)
    ensures Encodable(r)
  {
  }

  /** The first record, given what becomes of the others. */
  lemma OneRecordRead(accepts: Accepts, rs: seq<WireRecord>, rest: seq<byte>, sequenced: bool, floor: Option<nat>)
    requires rs != [] && RecordFits(rs[0]) && forall i :: 0 <= i < |rs| ==> Encodable(rs[i])
    requires ReadRecords(accepts, |rs| - 1, RecordsBytes(rs[1..]) + rest, sequenced, floor) == Outcome(accepts, rs[1..], rest, sequenced, floor)
    ensures ReadRecords(accepts, |rs|, RecordsBytes(rs) + rest, sequenced, floor) == Outcome(accepts, rs, rest, sequenced, floor)
  {
    hide Encodable, RecordBytes, RecordFits, ReadRecord, ReadRecords, Wanted, WantedOf, RecordsBytes, Refused, Outcome;
    FirstRecord(rs, sequenced, floor);
    FirstOutcome(accepts, rs, rest, sequenced, floor);
    var r, more := rs[0], RecordsBytes(rs[1..]);
    var b := RecordsBytes(rs) + rest;
    RecordRoundTrip(accepts, r, more + rest, sequenced, floor);
    Associates(RecordBytes(r), more, rest);
    if Refused(accepts, r, floor) {
      ReadBrokenRecord(accepts, |rs|, b, sequenced, floor);
    } else {
      ReadFirstRecord(accepts, |rs|, b, sequenced, floor, Wanted(r, sequenced, floor), more + rest);
    }
  }

  /** Reading a written list gives its outcome, however many unknown records lie between its events. */
  lemma {:induction false} RecordsRoundTrip(accepts: Accepts, rs: seq<WireRecord>, rest: seq<byte>, sequenced: bool, floor: Option<nat>)
    requires forall i :: 0 <= i < |rs| ==> RecordFits(rs[i])
    ensures forall i :: 0 <= i < |rs| ==> Encodable(rs[i])
    ensures ReadRecords(accepts, |rs|, RecordsBytes(rs) + rest, sequenced, floor) == Outcome(accepts, rs, rest, sequenced, floor)
    decreases |rs|
  {
    hide RecordFits, Encodable, ReadRecords, ReadRecord, WantedOf, Wanted, RecordsBytes, RecordBytes, Outcome, Refused;
    forall i | 0 <= i < |rs|
      ensures Encodable(rs[i])
    {
      FittingIsEncodable(rs[i]);
    }
    if rs == [] {
      NoRecordsToRead(accepts, rest, sequenced, floor);
      NoOutcome(accepts, rest, sequenced, floor);
      assert rs == [] && RecordsBytes(rs) + rest == rest;
    } else {
      RecordsRoundTrip(accepts, rs[1..], rest, sequenced, floor);
      OneRecordRead(accepts, rs, rest, sequenced, floor);
    }
  }

  lemma RecordRoundTrip(accepts: Accepts, r: WireRecord, rest: seq<byte>, sequenced: bool, floor: Option<nat>)
    requires RecordFits(r)
    ensures ReadRecord(accepts, RecordBytes(r) + rest, sequenced, floor) ==
            if Refused(accepts, r, floor) then Broken else Got(Wanted(r, sequenced, floor), rest)
  {
    if r.Known? {
      KnownRoundTrip(accepts, r.position, r.event, rest, sequenced, floor);
    } else {
      UnknownRoundTrip(accepts, r.flags, r.bytes, rest, sequenced, floor);
    }
    hide Record, ReadRecord;
  }

  lemma NoRecordsToRead(accepts: Accepts, b: seq<byte>, sequenced: bool, floor: Option<nat>)
    ensures ReadRecords(accepts, 0, b, sequenced, floor) == Batch([], b, false)
    ensures RecordsBytes([]) == [] && WantedOf([], sequenced, floor) == []
  {
  }

  lemma FirstRecord(rs: seq<WireRecord>, sequenced: bool, floor: Option<nat>)
    requires rs != [] && forall i :: 0 <= i < |rs| ==> Encodable(rs[i])
    ensures RecordsBytes(rs) == RecordBytes(rs[0]) + RecordsBytes(rs[1..])
    ensures var one := Wanted(rs[0], sequenced, floor);
            WantedOf(rs, sequenced, floor) == (if one.Some? then [one.value] else []) + WantedOf(rs[1..], sequenced, floor)
  {
    hide Encodable, RecordBytes, Wanted;
  }

  lemma ReadFirstRecord(accepts: Accepts, n: nat, b: seq<byte>, sequenced: bool, floor: Option<nat>, one: Option<Sequenced>, rest: seq<byte>)
    requires n > 0 && ReadRecord(accepts, b, sequenced, floor) == Got(one, rest)
    ensures var more := ReadRecords(accepts, n - 1, rest, sequenced, floor);
            ReadRecords(accepts, n, b, sequenced, floor) == more.(events := (if one.Some? then [one.value] else []) + more.events)
  {
    hide ReadRecord;
  }

  // ---------------------------------------------------------------------------
  // Eager, lazy and with a floor
  // ---------------------------------------------------------------------------

  function FromFloor(events: seq<Sequenced>, floor: nat): seq<Sequenced> {
    if events == [] then []
    else (if events[0].sequence < floor then [] else [events[0]]) + FromFloor(events[1..], floor)
  }

  function Messages(events: seq<Sequenced>): seq<Message> {
    if events == [] then [] else [events[0].event] + Messages(events[1..])
  }

  lemma RecordWithFloor(accepts: Accepts, b: seq<byte>, sequenced: bool, floor: nat)
    requires ReadRecord(accepts, b, true, None).Got?
    ensures var all, some := ReadRecord(accepts, b, true, None), ReadRecord(accepts, b, sequenced, Some(floor));
            some.Got? && some.rest == all.rest
            && some.value == if all.value.Some? && all.value.value.sequence < floor then None else all.value
  {
    hide ReadBody, ReadU32, ReadU64;
  }

  /** An event whose framing is sound and whose position lies below the floor, whatever its body is. */
  predicate BelowFloor(b: seq<byte>, floor: nat) {
    && |b| >= 4 && 0 < GetU32(b) <= |b| - 4 && b[4] == 0
    && ReadU64(b[5..]).Got? && ReadU64(b[5..]).value < floor
  }

  /** A record that cannot be read stops a reader with a floor too, exactly unless it lies below the floor. */
  lemma BrokenWithFloor(accepts: Accepts, b: seq<byte>, sequenced: bool, floor: nat)
    requires ReadRecord(accepts, b, true, None).Broken?
    ensures ReadRecord(accepts, b, sequenced, Some(floor)).Broken? <==> !BelowFloor(b, floor)
    ensures BelowFloor(b, floor) ==> ReadRecord(accepts, b, sequenced, Some(floor)) == Got(None, b[4..][GetU32(b)..])
  {
    hide ReadBody, GetU32, ReadU64;
    assert |b| >= 5 ==> b[4..][1..] == b[5..] && b[4..][0] == b[4];
  }

  /** The record at which reading everything stops, if there is one, does not lie below the floor. */
  predicate StopsToo(accepts: Accepts, n: nat, b: seq<byte>, floor: nat) {
    n == 0 ||
    match ReadRecord(accepts, b, true, None)
    case Broken => !BelowFloor(b, floor)
    case Got(_, rest) => StopsToo(accepts, n - 1, rest, floor)
  }

  function Filtered(all: Batch, floor: nat): Batch {
    all.(events := FromFloor(all.events, floor))
  }

  lemma FilterFirst(one: Option<Sequenced>, more: seq<Sequenced>, floor: nat)
    ensures var kept := if one.Some? && one.value.sequence < floor then None else one;
            FromFloor((if one.Some? then [one.value] else []) + more, floor) == (if kept.Some? then [kept.value] else []) + FromFloor(more, floor)
  {
    if one.Some? {
      assert ([one.value] + more)[1..] == more;
    } else {
      assert [] + more == more;
    }
  }

  lemma ReadBrokenRecord(accepts: Accepts, n: nat, b: seq<byte>, sequenced: bool, floor: Option<nat>)
    requires n > 0 && ReadRecord(accepts, b, sequenced, floor).Broken?
    ensures ReadRecords(accepts, n, b, sequenced, floor) == Batch([], b, true)
  {
  }

  lemma {:induction false} RestShrinks(accepts: Accepts, n: nat, b: seq<byte>, sequenced: bool, floor: Option<nat>)
    ensures |ReadRecords(accepts, n, b, sequenced, floor).rest| <= |b|
  {
    if n > 0 {
      var one := ReadRecord(accepts, b, sequenced, floor);
      if one.Got? {
        assert |one.rest| < |b| by { hide ReadBody, ReadPosition; }
        hide ReadRecord;
        RestShrinks(accepts, n - 1, one.rest, sequenced, floor);
      }
    }
  }

  /**
    Reading with a floor is reading everything and dropping what lies below it, errors and all,
    if and only if no unreadable record below the floor is in the way.
  */
  lemma {:induction false} FloorIsAFilter(accepts: Accepts, n: nat, b: seq<byte>, sequenced: bool, floor: nat)
    ensures ReadRecords(accepts, n, b, sequenced, Some(floor)) == Filtered(ReadRecords(accepts, n, b, true, None), floor) <==> StopsToo(accepts, n, b, floor)
  {
    hide ReadRecords, FromFloor, BelowFloor;
    if n == 0 {
      NoRecordsToRead(accepts, b, true, None);
      NoRecordsToRead(accepts, b, sequenced, Some(floor));
      assert FromFloor([], floor) == [] by { NoneToFilter(floor); }
    } else {
      var all := ReadRecord(accepts, b, true, None);
      if all.Broken? {
        ReadBrokenRecord(accepts, n, b, true, None);
        BrokenWithFloor(accepts, b, sequenced, floor);
        assert FromFloor([], floor) == [] by { NoneToFilter(floor); }
        if BelowFloor(b, floor) {
          SteppedOver(accepts, n, b, sequenced, floor);
        } else {
          ReadBrokenRecord(accepts, n, b, sequenced, Some(floor));
        }
      } else {
        RecordWithFloor(accepts, b, sequenced, floor);
        hide ReadRecord;
        var some := ReadRecord(accepts, b, sequenced, Some(floor));
        ReadFirstRecord(accepts, n, b, true, None, all.value, all.rest);
        ReadFirstRecord(accepts, n, b, sequenced, Some(floor), some.value, some.rest);
        FloorIsAFilter(accepts, n - 1, all.rest, sequenced, floor);
        FilterFirst(all.value, ReadRecords(accepts, n - 1, all.rest, true, None).events, floor);
        SameTail(some.value, ReadRecords(accepts, n - 1, some.rest, sequenced, Some(floor)), Filtered(ReadRecords(accepts, n - 1, all.rest, true, None), floor));
      }
    }
  }

  lemma NoneToFilter(floor: nat)
    ensures FromFloor([], floor) == []
  {
  }

  /** A reader that gets past a record is left with less than that record. */
  lemma SteppedOver(accepts: Accepts, n: nat, b: seq<byte>, sequenced: bool, floor: nat)
    requires n > 0 && ReadRecord(accepts, b, true, None).Broken? && BelowFloor(b, floor)
    ensures ReadRecords(accepts, n, b, sequenced, Some(floor)).rest != b
  {
    hide ReadRecord, ReadRecords, GetU32, ReadU64;
    BrokenWithFloor(accepts, b, sequenced, floor);
    var rest := b[4..][GetU32(b)..];
    assert |rest| < |b|;
    hide BelowFloor;
    ReadFirstRecord(accepts, n, b, sequenced, Some(floor), None, rest);
    RestShrinks(accepts, n - 1, rest, sequenced, Some(floor));
  }

  lemma SameTail(one: Option<Sequenced>, x: Batch, y: Batch)
    ensures x == y <==>
            x.(events := (if one.Some? then [one.value] else []) + x.events) == y.(events := (if one.Some? then [one.value] else []) + y.events)
  {
    if one.Some? {
      assert ([one.value] + x.events)[1..] == x.events && ([one.value] + y.events)[1..] == y.events;
    } else {
      assert [] + x.events == x.events && [] + y.events == y.events;
    }
  }

  /** One record at position zero whose body is missing: an error without a floor, nothing at all with one. */
  lemma FloorHidesAnError(accepts: Accepts)
    ensures var b := U32(9) + ([0] + U64(0));
            && ReadRecords(accepts, 1, b, true, None) == Batch([], b, true)
            && ReadRecords(accepts, 1, b, true, Some(1)) == Batch([], [], false)
  {
    var b := U32(9) + ([0] + U64(0));
    U32RoundTrip(9, [0] + U64(0));
    U64RoundTrip(0, []);
    assert b[4..] == [0] + U64(0) && b[5..] == U64(0) + [] && b[4..][9..] == [];
    assert b[4..][1..][8..] == [];
    NoRecordsToRead(accepts, [], true, Some(1));
    assert ReadBody(accepts, []).Broken?;
    hide U32, GetU32, U64, ReadU64, ReadBody;
    assert ReadRecord(accepts, b, true, None).Broken?;
    assert ReadRecord(accepts, b, true, Some(1)) == Got(None, []);
    hide ReadRecord, ReadRecords;
    ReadBrokenRecord(accepts, 1, b, true, None);
    ReadFirstRecord(accepts, 1, b, true, Some(1), None, []);
  }

  /**
    A whole event below the floor whose payload the serializer refuses: without the floor
    reading stops at it, with the floor it is stepped over.
  */
  lemma RefusedBelowTheFloor(accepts: Accepts, position: nat, e: Event, rest: seq<byte>, sequenced: bool, floor: nat)
    requires RecordFits(Known(position, e)) && position < floor && !Accepted(accepts, e)
    ensures var b := Record(position, e) + rest;
            && ReadRecords(accepts, 1, b, true, None) == Batch([], b, true)
            && ReadRecords(accepts, 1, b, sequenced, Some(floor)) == Batch([], rest, false)
            && !StopsToo(accepts, 1, b, floor)
  {
    hide ReadRecord, ReadRecords, Record, Body, Fits, Accepted, Wanted, BelowFloor, FromFloor, StopsToo;
    var r, b := Known(position, e), Record(position, e) + rest;
    KnownRoundTrip(accepts, position, e, rest, true, None);
    KnownRoundTrip(accepts, position, e, rest, sequenced, Some(floor));
    assert Wanted(r, sequenced, Some(floor)) == None by { NotWanted(r, sequenced, floor); }
    ReadBrokenRecord(accepts, 1, b, true, None);
    NoRecordsToRead(accepts, rest, sequenced, Some(floor));
    ReadFirstRecord(accepts, 1, b, sequenced, Some(floor), None, rest);
    FloorIsAFilter(accepts, 1, b, sequenced, floor);
  }

  lemma NotWanted(r: WireRecord, sequenced: bool, floor: nat)
    requires r.Known? && r.position < floor
    ensures Wanted(r, sequenced, Some(floor)) == None
  {
  }

  lemma RecordUnsequenced(accepts: Accepts, b: seq<byte>)
    ensures var with, without := ReadRecord(accepts, b, true, None), ReadRecord(accepts, b, false, None);
            && with.Broken? == without.Broken?
            && (with.Got? ==> with.rest == without.rest && with.value.Some? == without.value.Some?)
            && (with.Got? && with.value.Some? ==> with.value.value.event == without.value.value.event)
  {
    hide ReadBody, ReadU32, GetU32;
  }

  /** Not asking for positions changes nothing else, errors included. */
  lemma {:induction false} PositionsAreExtra(accepts: Accepts, n: nat, b: seq<byte>)
    ensures var with, without := ReadRecords(accepts, n, b, true, None), ReadRecords(accepts, n, b, false, None);
            Messages(with.events) == Messages(without.events) && with.rest == without.rest && with.broken == without.broken
  {
    if n > 0 {
      hide ReadRecord;
      RecordUnsequenced(accepts, b);
      var one, other := ReadRecord(accepts, b, true, None), ReadRecord(accepts, b, false, None);
      if one.Got? {
        PositionsAreExtra(accepts, n - 1, one.rest);
        var with, without := ReadRecords(accepts, n - 1, one.rest, true, None), ReadRecords(accepts, n - 1, one.rest, false, None);
        if one.value.Some? {
          assert ([one.value.value] + with.events)[1..] == with.events;
          assert ([other.value.value] + without.events)[1..] == without.events;
        }
      }
    }
  }

  /** The next event of a batch kept as bytes: stepping over records until there is one. */
  datatype Taken = Taken(item: Option<Sequenced>, left: nat, rest: seq<byte>, broken: bool)

  function TakeNext(accepts: Accepts, left: nat, b: seq<byte>): Taken {
    if left == 0 then Taken(None, 0, b, false)
    else match ReadRecord(accepts, b, true, None)
      case Broken => Taken(None, left - 1, b, true)
      case Got(one, rest) => if one.Some? then Taken(one, left - 1, rest, false) else TakeNext(accepts, left - 1, rest)
  }

  function Prepend(one: Sequenced, batch: Batch): Batch {
    batch.(events := [one] + batch.events)
  }

  /** Taking one event and reading the rest eagerly is reading everything eagerly. */
  lemma {:induction false} TakeThenRead(accepts: Accepts, left: nat, b: seq<byte>)
    ensures var t, all := TakeNext(accepts, left, b), ReadRecords(accepts, left, b, true, None);
            && (t.item.Some? ==> !t.broken && t.left < left && all == Prepend(t.item.value, ReadRecords(accepts, t.left, t.rest, true, None)))
            && (t.item.None? ==> all.events == [] && all.broken == t.broken && (!t.broken ==> all.rest == t.rest && t.left == 0))
  {
    hide ReadRecord, ReadRecords;
    if left == 0 {
      NoRecordsToRead(accepts, b, true, None);
    } else {
      var one := ReadRecord(accepts, b, true, None);
      if one.Broken? {
        ReadBrokenRecord(accepts, left, b, true, None);
      } else {
        ReadFirstRecord(accepts, left, b, true, None, one.value, one.rest);
        if one.value.None? {
          TakeThenRead(accepts, left - 1, one.rest);
          var more := ReadRecords(accepts, left - 1, one.rest, true, None);
          assert [] + more.events == more.events;
        }
      }
    }
  }

  /** An Events frame kept as the bytes it arrived in. */
  class RawBatch {
    const accepts: Accepts
    var left: nat
    var rest: seq<byte>

    constructor (accepts: Accepts, left: nat, rest: seq<byte>)
      ensures this.accepts == accepts && this.left == left && this.rest == rest
    {
      this.accepts, this.left, this.rest := accepts, left, rest;
    }

    method Take() returns (item: Option<Sequenced>, broken: bool)
      modifies this
      ensures Taken(item, left, rest, broken) == TakeNext(accepts, old(left), old(rest))
    {
      hide ReadRecord;
      item, broken := None, false;
      while left > 0
        invariant TakeNext(accepts, left, rest) == TakeNext(accepts, old(left), old(rest)) && item.None? && !broken
        decreases left
      {
        left := left - 1;
        var one := ReadRecord(accepts, rest, true, None);
        if one.Broken? {
          broken := true;
          return;
        }
        rest := one.rest;
        if one.value.Some? {
          item := one.value;
          return;
        }
      }
    }
  }

  /** Draining a batch lazily gives the events, and the error, of reading it eagerly. */
  method Drain(batch: RawBatch) returns (events: seq<Sequenced>, broken: bool)
    modifies batch
    ensures events == ReadRecords(batch.accepts, old(batch.left), old(batch.rest), true, None).events
    ensures broken == ReadRecords(batch.accepts, old(batch.left), old(batch.rest), true, None).broken
  {
    hide ReadRecords, ReadRecord, TakeNext;
    events, broken := [], false;
    ghost var all := ReadRecords(batch.accepts, batch.left, batch.rest, true, None);
    var done := false;
    while !done
      invariant !broken || done
      invariant !done ==> all.events == events + ReadRecords(batch.accepts, batch.left, batch.rest, true, None).events
      invariant !done ==> all.broken == ReadRecords(batch.accepts, batch.left, batch.rest, true, None).broken
      invariant done ==> all.events == events && all.broken == broken
      decreases !done, batch.left
    {
      TakeThenRead(batch.accepts, batch.left, batch.rest);
      var item, failed := batch.Take();
      if item.Some? {
        ghost var more := ReadRecords(batch.accepts, batch.left, batch.rest, true, None).events;
        assert events + ([item.value] + more) == events + [item.value] + more;
        events := events + [item.value];
      } else {
        assert events + [] == events;
        done, broken := true, failed;
      }
    }
  }

  /** The eager reader: `count u32`, the records, and a marker that is present on the last frame. */
  method ReadEvents(accepts: Accepts, b: seq<byte>, floor: Option<nat>) returns (out: seq<Sequenced>, marker: Option<nat>, ok: bool)
    ensures ReadU32(b).Broken? ==> !ok
    ensures ReadU32(b).Got? ==>
              var all := ReadRecords(accepts, ReadU32(b).value, ReadU32(b).rest, false, floor);
              && out == all.events
              && ok == (!all.broken && ReadMarker(all.rest).Got?)
              && (ok ==> marker == ReadMarker(all.rest).value)
  {
    hide ReadRecord, ReadU32, ReadU64;
    out, marker := [], None;
    var count := ReadU32(b);
    if count.Broken? {
      return out, marker, false;
    }
    var n, rest := count.value, count.rest;
    ghost var all := ReadRecords(accepts, n, rest, false, floor);
    while n > 0
      invariant all.events == out + ReadRecords(accepts, n, rest, false, floor).events
      invariant all.rest == ReadRecords(accepts, n, rest, false, floor).rest && all.broken == ReadRecords(accepts, n, rest, false, floor).broken
      decreases n
    {
      var one := ReadRecord(accepts, rest, false, floor);
      if one.Broken? {
        return out, marker, false;
      }
      if one.value.Some? {
        ghost var more := ReadRecords(accepts, n - 1, one.rest, false, floor).events;
        assert out + ([one.value.value] + more) == out + [one.value.value] + more;
        out := out + [one.value.value];
      }
      rest := one.rest;
      n := n - 1;
    }
    var last := ReadMarker(rest);
    ok := last.Got?;
    if ok {
      marker := last.value;
    }
  }

  function ReadMarker(b: seq<byte>): Parsed<Option<nat>> {
    match ReadPresent(b) case Broken => Broken case Got(present, rest) =>
    if !present then Got(None, rest)
    else match ReadU64(rest) case Broken => Broken case Got(n, after) => Got(Some(n), after)
  }

  // ---------------------------------------------------------------------------
  // Writing
  // ---------------------------------------------------------------------------

  lemma {:induction false} PresentSplits(a: seq<Entry>, b: seq<Entry>)
    ensures Present(a + b) == Present(a) + Present(b)
  {
    hide Present;
    if a == [] {
      assert Present(a) == [] by { NoPairs(); }
      assert a + b == b && [] + Present(b) == Present(b);
    } else {
      FirstPresent(a);
      FirstPresent(a + b);
      assert (a + b)[1..] == a[1..] + b;
      PresentSplits(a[1..], b);
    }
  }

  lemma FirstPresent(metadata: seq<Entry>)
    requires metadata != []
    ensures Present(metadata) ==
            (if metadata[0].value.Some? then [Field(metadata[0].key, metadata[0].value.value)] else []) + Present(metadata[1..])
  {
  }

  lemma {:induction false} PairsSnoc(ps: seq<Pair>, p: Pair)
    requires AllFit(ps) && PairFits(p)
    ensures AllFit(ps + [p]) && Pairs(ps + [p]) == Pairs(ps) + (Str16(p.key) + Str16(p.value))
  {
    hide Str16;
    var all := ps + [p];
    if ps == [] {
      assert all[1..] == [];
      assert Pairs(all) == Str16(p.key) + Str16(p.value) + Pairs(all[1..]);
    } else {
      assert all[1..] == ps[1..] + [p] && all[0] == ps[0];
      PairsSnoc(ps[1..], p);
      Associates(Str16(ps[0].key) + Str16(ps[0].value), Pairs(ps[1..]), Str16(p.key) + Str16(p.value));
    }
  }

  method WritePair(w: Writer, p: Pair) returns (ok: bool)
    requires w.Valid()
    modifies w, w.buf
    ensures w.Valid() && (w.buf == old(w.buf) || fresh(w.buf))
    ensures ok == PairFits(p) && (ok ==> w.Written() == old(w.Written()) + (Str16(p.key) + Str16(p.value)))
  {
    hide Str16;
    ok := WriteStr16(w, p.key);
    if ok {
      ok := WriteStr16(w, p.value);
    }
  }

  /** The count precedes the entries and nulls are skipped, so it is written last, into the space left for it. */
  method WriteMetadata(w: Writer, metadata: seq<Entry>) returns (ok: bool)
    requires w.Valid()
    modifies w, w.buf
    ensures w.Valid() && (w.buf == old(w.buf) || fresh(w.buf))
    ensures ok == PairsFit(Present(metadata)) && (ok ==> w.Written() == old(w.Written()) + List16(Present(metadata)))
  {
    hide U16, Pairs, Present;
    ghost var before := w.Written();
    var countAt, entries, i := w.pos, 0, 0;
    w.Write(U16(0));
    assert Present([]) == [] && Pairs([]) == [] by { NoPairs(); }
    while i < |metadata|
      invariant 0 <= i <= |metadata| && w.Valid() && (w.buf == old(w.buf) || fresh(w.buf))
      invariant AllFit(Present(metadata[..i])) && entries == |Present(metadata[..i])|
      invariant w.Written() == before + (U16(0) + Pairs(Present(metadata[..i])))
    {
      assert metadata[..i + 1] == metadata[..i] + [metadata[i]];
      PresentSplits(metadata[..i], [metadata[i]]);
      OnePresent(metadata[i]);
      if metadata[i].value.Some? {
        ghost var ps, p := Present(metadata[..i]), Field(metadata[i].key, metadata[i].value.value);
        ok := WritePair(w, Field(metadata[i].key, metadata[i].value.value));
        if !ok {
          assert metadata == metadata[..i + 1] + metadata[i + 1..];
          PresentSplits(metadata[..i + 1], metadata[i + 1..]);
          assert Present(metadata)[|ps|] == p;
          return;
        }
        PairsSnoc(ps, p);
        entries := entries + 1;
        Regroup3(before, U16(0), Pairs(ps), Str16(p.key) + Str16(p.value));
        assert Present(metadata[..i + 1]) == ps + [p];
      } else {
        assert Present(metadata[..i + 1]) == Present(metadata[..i]);
      }
      i := i + 1;
    }
    assert metadata[..i] == metadata;
    if entries > 0xffff {
      return false;
    }
    ghost var body := Pairs(Present(metadata));
    w.Patch(countAt, U16(entries));
    Patched(before, U16(0), body, U16(entries));
    ok := true;
  }

  lemma NoPairs()
    ensures Present([]) == [] && Pairs([]) == []
  {
  }

  lemma OnePresent(entry: Entry)
    ensures Present([entry]) == if entry.value.Some? then [Field(entry.key, entry.value.value)] else []
  {
    assert [entry][1..] == [];
    assert Present([entry][1..]) == [];
  }

  method WriteTags(w: Writer, tags: seq<Pair>) returns (ok: bool)
    requires w.Valid()
    modifies w, w.buf
    ensures w.Valid() && (w.buf == old(w.buf) || fresh(w.buf))
    ensures ok == PairsFit(tags) && (ok ==> w.Written() == old(w.Written()) + List16(tags))
  {
    hide U16, Pairs;
    if |tags| > 0xffff {
      return false;
    }
    ghost var before := w.Written();
    w.Write(U16(|tags|));
    var i := 0;
    assert Pairs([]) == [] by { NoPairs(); }
    while i < |tags|
      invariant 0 <= i <= |tags| && w.Valid() && (w.buf == old(w.buf) || fresh(w.buf))
      invariant AllFit(tags[..i]) && w.Written() == before + (U16(|tags|) + Pairs(tags[..i]))
    {
      ok := WritePair(w, tags[i]);
      if !ok {
        return;
      }
      assert tags[..i + 1] == tags[..i] + [tags[i]];
      PairsSnoc(tags[..i], tags[i]);
      Regroup3(before, U16(|tags|), Pairs(tags[..i]), Str16(tags[i].key) + Str16(tags[i].value));
      i := i + 1;
    }
    assert tags[..i] == tags;
    ok := true;
  }

  method WriteHead(w: Writer, e: Event) returns (ok: bool)
    requires w.Valid()
    modifies w, w.buf
    ensures w.Valid() && (w.buf == old(w.buf) || fresh(w.buf))
    ensures ok == (Fits16(e.identifier) && Fits16(FullName(e.name)) && Fits16(e.version) && IsSafeInteger(e.timestamp))
    ensures ok ==> w.Written() == old(w.Written()) + (Str16(e.identifier) + (Str16(FullName(e.name)) + (Str16(e.version) + SplitI64(e.timestamp))))
  {
    hide Str16, SplitI64, Fits16, FullName;
    ghost var before := w.Written();
    ok := WriteStr16(w, e.identifier);
    if !ok {
      return;
    }
    ok := WriteStr16(w, FullName(e.name));
    if !ok {
      return;
    }
    ok := WriteStr16(w, e.version);
    if !ok {
      return;
    }
    if !IsSafeInteger(e.timestamp) {
      return false;
    }
    w.Write(SplitI64(e.timestamp));
    assert w.Written() == before + (Str16(e.identifier) + (Str16(FullName(e.name)) + (Str16(e.version) + SplitI64(e.timestamp))));
  }

  method WriteBody(w: Writer, e: Event) returns (ok: bool)
    requires w.Valid()
    modifies w, w.buf
    ensures w.Valid() && (w.buf == old(w.buf) || fresh(w.buf))
    ensures ok == Fits(e) && (ok ==> w.Written() == old(w.Written()) + Body(e))
  {
    hide Str16, SplitI64, List16, Present, PairsFit, Bytes32, Fits16, FullName;
    ghost var before := w.Written();
    ok := WriteHead(w, e);
    if !ok {
      return;
    }
    ok := WriteMetadata(w, e.metadata);
    if !ok {
      return;
    }
    ok := WriteTags(w, e.tags);
    if !ok {
      return;
    }
    ok := WriteBytes32(w, e.data);
    if !ok {
      return;
    }
    Regroup(before, Head(e), List16(Present(e.metadata)), List16(e.tags), Bytes32(e.data));
  }

  lemma Regroup(before: seq<byte>, a: seq<byte>, b: seq<byte>, c: seq<byte>, d: seq<byte>)
    ensures before + a + b + c + d == before + (a + (b + (c + d)))
  {
  }

  /** Position zero, for the server to assign; the length is patched in once it is known. */
  method WriteRecord(w: Writer, e: Event) returns (ok: bool)
    requires w.Valid()
    modifies w, w.buf
    ensures w.Valid() && (w.buf == old(w.buf) || fresh(w.buf))
    ensures ok == Fits(e)
    ensures ok ==> w.Written() == old(w.Written()) + Record(0, e)
  {
    hide U32, U64, Body, Fits;
    ghost var before := w.Written();
    var start := w.pos;
    w.Write(U32(0));
    w.Write([0]);
    w.Write(U64(0));
    ok := WriteBody(w, e);
    if !ok {
      return;
    }
    ghost var tail := [0] + (U64(0) + Body(e));
    assert w.Written() == before + (U32(0) + tail);
    var len := w.pos - start - 4;
    w.Patch(start, U32(len % Half));
    Patched(before, U32(0), tail, U32(len % Half));
    assert len == 9 + |Body(e)|;
  }

  ghost predicate AllWritable(es: seq<Event>) {
    |es| <= 0xffff_ffff && forall i :: 0 <= i < |es| ==> Fits(es[i])
  }

  ghost predicate Small(es: seq<Event>) {
    forall i :: 0 <= i < |es| && Fits(es[i]) ==> 9 + |Body(es[i])| < Half
  }

  function AsSent(es: seq<Event>): (rs: seq<WireRecord>)
    ensures |rs| == |es| && forall i :: 0 <= i < |es| ==> rs[i] == Known(0, es[i])
  {
    seq(|es|, i requires 0 <= i < |es| => Known(0, es[i]))
  }

  lemma {:induction false} RecordsSnoc(rs: seq<WireRecord>, r: WireRecord)
    requires (forall i :: 0 <= i < |rs| ==> Encodable(rs[i])) && Encodable(r)
    ensures forall i :: 0 <= i < |rs + [r]| ==> Encodable((rs + [r])[i])
    ensures RecordsBytes(rs + [r]) == RecordsBytes(rs) + RecordBytes(r)
  {
    hide RecordBytes, Encodable;
    var all := rs + [r];
    if rs == [] {
      assert all[1..] == [];
      assert RecordsBytes(all) == RecordBytes(r) + RecordsBytes(all[1..]);
    } else {
      assert all[1..] == rs[1..] + [r] && all[0] == rs[0];
      RecordsSnoc(rs[1..], r);
      Associates(RecordBytes(rs[0]), RecordsBytes(rs[1..]), RecordBytes(r));
    }
  }

  lemma NoRecords()
    ensures AsSent([]) == [] && RecordsBytes([]) == []
  {
  }

  /** The count and the records, one after another. */
  method WriteRecords(w: Writer, es: seq<Event>) returns (ok: bool)
    requires w.Valid()
    modifies w, w.buf
    ensures w.Valid() && (w.buf == old(w.buf) || fresh(w.buf))
    ensures ok == AllWritable(es)
    ensures ok ==> forall i :: 0 <= i < |es| ==> Encodable(AsSent(es)[i])
    ensures ok ==> w.Written() == old(w.Written()) + (U32(|es|) + RecordsBytes(AsSent(es)))
  {
    hide U32, Fits, Body, Record, RecordsBytes;
    if |es| > 0xffff_ffff {
      return false;
    }
    ghost var before := w.Written();
    w.Write(U32(|es|));
    var i := 0;
    assert AsSent([]) == [] && RecordsBytes([]) == [] by { NoRecords(); }
    while i < |es|
      invariant 0 <= i <= |es| && w.Valid() && (w.buf == old(w.buf) || fresh(w.buf))
      invariant forall k :: 0 <= k < i ==> Fits(es[k])
      invariant forall k :: 0 <= k < i ==> Encodable(AsSent(es[..i])[k])
      invariant w.Written() == before + (U32(|es|) + RecordsBytes(AsSent(es[..i])))
    {
      ok := WriteRecord(w, es[i]);
      if !ok {
        return;
      }
      assert es[..i + 1] == es[..i] + [es[i]];
      assert AsSent(es[..i + 1]) == AsSent(es[..i]) + [Known(0, es[i])];
      assert Encodable(Known(0, es[i]));
      RecordsSnoc(AsSent(es[..i]), Known(0, es[i]));
      Regroup3(before, U32(|es|), RecordsBytes(AsSent(es[..i])), Record(0, es[i]));
      i := i + 1;
    }
    assert es[..i] == es;
    ok := true;
  }

  /** What comes back of a written list: the events as sent, at position zero. */
  lemma {:induction false} SentIsRead(es: seq<Event>, sequenced: bool)
    ensures |WantedOf(AsSent(es), sequenced, None)| == |es|
    ensures forall i :: 0 <= i < |es| ==> WantedOf(AsSent(es), sequenced, None)[i] == Sequenced(0, Normal(es[i]))
  {
    hide Normal;
    if es != [] {
      var rs := AsSent(es);
      assert rs[1..] == AsSent(es[1..]);
      SentIsRead(es[1..], sequenced);
      assert Wanted(rs[0], sequenced, None) == Some(Sequenced(0, Normal(es[0])));
      var more := WantedOf(rs[1..], sequenced, None);
      assert WantedOf(rs, sequenced, None) == [Sequenced(0, Normal(es[0]))] + more;
      hide WantedOf, Wanted;
      forall i | 0 <= i < |es|
        ensures WantedOf(rs, sequenced, None)[i] == Sequenced(0, Normal(es[i]))
      {
        assert i > 0 ==> es[i] == es[1..][i - 1] && WantedOf(rs, sequenced, None)[i] == more[i - 1];
      }
    }
  }

  /**
    Writing a list of events and reading it back succeeds if and only if the serializer accepts
    them all; then it gives what a reader makes of each, and consumes exactly what was written.
    An event comes back as it was sent if and only if all of it is intact.
  */
  lemma WrittenEventsAreRead(accepts: Accepts, es: seq<Event>, rest: seq<byte>, sequenced: bool)
    requires AllWritable(es) && Small(es)
    ensures forall i :: 0 <= i < |es| ==> Encodable(AsSent(es)[i])
    ensures ReadU32(U32(|es|) + RecordsBytes(AsSent(es)) + rest) == Got(|es|, RecordsBytes(AsSent(es)) + rest)
    ensures var all := ReadRecords(accepts, |es|, RecordsBytes(AsSent(es)) + rest, sequenced, None);
            && (!all.broken <==> forall i :: 0 <= i < |es| ==> Accepted(accepts, es[i]))
            && (!all.broken ==> all.rest == rest && |all.events| == |es|)
            && (!all.broken ==> forall i :: 0 <= i < |es| ==> all.events[i].event == Normal(es[i]))
            && (!all.broken ==> forall i :: 0 <= i < |es| && DistinctKeys(Present(es[i].metadata)) ==>
                  (all.events[i].event == Original(es[i]) <==> EventIntact(es[i])))
  {
    hide Fits, Body, Record, U32, GetU32, ReadRecords, RecordsBytes, Outcome, Normal, Original, EventIntact, Accepted, DistinctKeys, Present;
    assert forall i :: 0 <= i < |es| ==> RecordFits(AsSent(es)[i]);
    var rs := AsSent(es);
    var sent := RecordsBytes(rs);
    U32RoundTrip(|es|, sent + rest);
    Associates(U32(|es|), sent, rest);
    RecordsRoundTrip(accepts, rs, rest, sequenced, None);
    OutcomeExactly(accepts, rs, rest, sequenced, None);
    assert forall i :: 0 <= i < |es| ==> (Refused(accepts, rs[i], None) <==> !Accepted(accepts, es[i]));
    SentIsRead(es, sequenced);
    forall i | 0 <= i < |es| && DistinctKeys(Present(es[i].metadata))
      ensures Normal(es[i]) == Original(es[i]) <==> EventIntact(es[i])
    {
      EventExactly(es[i]);
    }
  }

  // ---------------------------------------------------------------------------
  // What arrives as it was
  // ---------------------------------------------------------------------------

  /** An event as sent, nulls left out of its metadata. */
  function Original(e: Event): Message {
    Message(e.identifier, e.name, e.version, e.timestamp, AsObject(Present(e.metadata)), e.tags, e.data)
  }

  ghost predicate PairsIntact(ps: seq<Pair>) {
    forall i :: 0 <= i < |ps| ==> Intact(ps[i].key) && Intact(ps[i].value)
  }

  ghost predicate NoProto(ps: seq<Pair>) {
    forall i :: 0 <= i < |ps| ==> ps[i].key != Proto
  }

  /** The whole name is intact and its local part has no dot. */
  predicate NameIntact(n: Title) {
    Intact(FullName(n)) && Dot !in n.local
  }

  ghost predicate EventIntact(e: Event) {
    && Intact(e.identifier) && NameIntact(e.name) && Intact(e.version)
    && PairsIntact(Present(e.metadata)) && NoProto(Present(e.metadata)) && PairsIntact(e.tags)
  }

  lemma PairsExactly(ps: seq<Pair>)
    ensures CarriedPairs(ps) == ps <==> PairsIntact(ps)
  {
    hide Carried, Intact;
    forall i | 0 <= i < |ps|
      ensures CarriedPairs(ps)[i] == ps[i] <==> Intact(ps[i].key) && Intact(ps[i].value)
    {
      CarriedExactly(ps[i].key);
      CarriedExactly(ps[i].value);
    }
  }

  /** Metadata arrives as it was sent if and only if its texts are intact and no key is `__proto__`. */
  lemma MetadataExactly(ps: seq<Pair>)
    requires DistinctKeys(ps)
    ensures Assigned(CarriedPairs(ps)) == AsObject(ps) <==> PairsIntact(ps) && NoProto(ps)
  {
    hide Assigned, AsObject, Carried, Intact;
    var rs := CarriedPairs(ps);
    PairsExactly(ps);
    AssignedLosesProto(rs);
    if Assigned(rs) == AsObject(ps) {
      ObjectArrives(ps, rs);
      assert rs == ps;
      AssignedLosesProto(ps);
    }
  }

  lemma {:induction false} CarriedKeepsDot(t: Text, i: nat)
    requires i < |t| && t[i] == Dot
    ensures Dot in Carried(t)
  {
    var u := if Marked(t) then t[1..] else t;
    var k := if Marked(t) then i - 1 else i;
    assert u[k] == Dot;
    assert Carried(t)[k] == Dot;
  }

  lemma NameExactly(n: Title)
    ensures Split(Carried(FullName(n)), Dot) == n <==> NameIntact(n)
  {
    var t := FullName(n);
    CarriedExactly(t);
    JoinedThenSplit(n, Dot);
    CarriedKeepsDot(t, |n.namespace|);
    SplitThenJoined(Carried(t), Dot);
    hide Carried, Intact, Split;
  }

  /** An event comes back as it was sent if and only if all its texts are intact, no metadata key is `__proto__` and its local name has no dot. */
  lemma EventExactly(e: Event)
    requires DistinctKeys(Present(e.metadata))
    ensures Normal(e) == Original(e) <==> EventIntact(e)
  {
    hide Carried, Intact, Split, FullName, NameIntact, PairsIntact, NoProto, Assigned, AsObject, Present, CarriedPairs, DistinctKeys;
    CarriedExactly(e.identifier);
    CarriedExactly(e.version);
    NameExactly(e.name);
    MetadataExactly(Present(e.metadata));
    PairsExactly(e.tags);
  }

  /** A byte order mark in front of `__proto__` does not save it: the field is lost. */
  lemma MarkedProtoIsLost(value: Text)
    ensures NoProto([Field([Mark] + Proto, value)])
    ensures Assigned(CarriedPairs([Field([Mark] + Proto, value)])) == map[]
  {
    var ps := [Field([Mark] + Proto, value)];
    assert |ps[0].key| == |Proto| + 1;
    assert WellFormed(Proto);
    MarkedIsCarried(Proto);
    hide Carried;
    var rs := CarriedPairs(ps);
    assert rs[0].key == Proto && rs[..0] == [];
    assert Assigned(rs[..0]) == map[];
  }

  /** A dot in the local part of a name moves what is in front of it into the namespace. */
  lemma DottedNameMoves(namespace: Text, a: Text, b: Text)
    requires Intact(FullName(Name(namespace, a + [Dot] + b))) && Dot !in b
    ensures Split(Carried(FullName(Name(namespace, a + [Dot] + b))), Dot) == Name(namespace + [Dot] + a, b)
  {
    var t := FullName(Name(namespace, a + [Dot] + b));
    CarriedExactly(t);
    assert t == FullName(Name(namespace + [Dot] + a, b));
    JoinedThenSplit(Name(namespace + [Dot] + a, b), Dot);
  }

  // ---------------------------------------------------------------------------
  // The layout, field by field
  // ---------------------------------------------------------------------------

  /** Two-byte length and bytes come first, and then the rest. */
  ghost predicate Begins(b: seq<byte>, t: Text, rest: seq<byte>) {
    ReadBytes16(b) == Got(Encode(t), rest)
  }

  /** Identifier, full name, version and instant, in this order, read with nothing but lengths. */
  lemma HeadInOrder(e: Event, rest: seq<byte>) returns (b1: seq<byte>, b2: seq<byte>, b3: seq<byte>)
    requires Fits(e)
    ensures Begins(Head(e) + rest, e.identifier, b1) && Begins(b1, FullName(e.name), b2) && Begins(b2, e.version, b3)
    ensures b3 == I64(e.timestamp) + rest
  {
    var t, name := SplitI64(e.timestamp), FullName(e.name);
    SplitIsTwosComplement(e.timestamp);
    b3 := t + rest;
    b2 := Str16(e.version) + b3;
    b1 := Str16(name) + b2;
    Str16RoundTrip(e.version, b3);
    Str16RoundTrip(name, b2);
    Str16RoundTrip(e.identifier, b1);
    hide Str16, ReadStr16, ReadLenient16, ReadBytes16, Encode, Carried, Fits16, FullName, SplitI64, I64, PairsFit;
    Associates(Str16(e.identifier), Str16(name) + (Str16(e.version) + t), rest);
    Associates(Str16(name), Str16(e.version) + t, rest);
    Associates(Str16(e.version), t, rest);
  }

  /** A list is its count and then each key before its value. */
  lemma ListInOrder(ps: seq<Pair>, rest: seq<byte>) returns (b: seq<byte>)
    requires PairsFit(ps)
    ensures ReadU16(List16(ps) + rest) == Got(|ps|, b) && (ps == [] ==> b == rest)
    ensures ps != [] ==> exists c, d :: Begins(b, ps[0].key, c) && Begins(c, ps[0].value, d) && d == Pairs(ps[1..]) + rest
  {
    b := Pairs(ps) + rest;
    U16RoundTrip(|ps|, b);
    Associates(U16(|ps|), Pairs(ps), rest);
    if ps == [] {
      NoPairs();
    } else {
      FirstPair(ps);
      PairFitsBoth(ps[0]);
      var d := Pairs(ps[1..]) + rest;
      var c := Str16(ps[0].value) + d;
      Str16RoundTrip(ps[0].value, d);
      Str16RoundTrip(ps[0].key, c);
      hide Str16, ReadStr16, ReadLenient16, ReadBytes16, Encode, Carried, Fits16, Pairs, U16, GetU16;
      assert b == Str16(ps[0].key) + c by {
        Associates(Str16(ps[0].key) + Str16(ps[0].value), Pairs(ps[1..]), rest);
        Associates(Str16(ps[0].key), Str16(ps[0].value), d);
      }
      assert Begins(b, ps[0].key, c) && Begins(c, ps[0].value, d);
    }
  }

  /** A record is its length, a zero flag, its position in eight bytes, the head, the metadata without nulls, the tags and the payload. */
  lemma RecordInOrder(position: nat, e: Event)
    requires Fits(e) && position < Half * Half && 9 + |Body(e)| < Half
    ensures var b := Record(position, e);
            && |b| == 13 + |Body(e)| && GetU32(b) == |b| - 4 && b[4] == 0 && ReadU64(b[5..]) == Got(position, b[13..])
            && b[13..] == Head(e) + (List16(Present(e.metadata)) + (List16(e.tags) + (U32(|e.data|) + e.data)))
  {
    BodyInOrder(e);
    hide Fits, Body, U32, U64, ReadU64, GetU32, Record;
    RecordIs(position, e);
    FramedInOrder(9 + |Body(e)|, position, Body(e));
  }

  lemma BodyInOrder(e: Event)
    requires Fits(e)
    ensures Body(e) == Head(e) + (List16(Present(e.metadata)) + (List16(e.tags) + (U32(|e.data|) + e.data)))
  {
    hide Head, List16, Present, U32, PairsFit;
  }

  lemma FramedInOrder(len: nat, position: nat, body: seq<byte>)
    requires len == 9 + |body| < Half && position < Half * Half
    ensures var b := U32(len) + ([0] + (U64(position) + body));
            && |b| == 13 + |body| && GetU32(b) == len && b[4] == 0 && ReadU64(b[5..]) == Got(position, body) && b[13..] == body
  {
    var b := U32(len) + ([0] + (U64(position) + body));
    U32RoundTrip(len, [0] + (U64(position) + body));
    U64RoundTrip(position, body);
    hide U32, GetU32, U64, ReadU64;
    assert b[4..] == [0] + (U64(position) + body);
    assert b[5..] == U64(position) + body && b[13..] == body;
  }

  /** What is sent of metadata is every entry that is not null, and nothing else. */
  lemma {:induction false} PresentHolds(metadata: seq<Entry>, p: Pair)
    ensures p in Present(metadata) <==> Entry(p.key, Some(p.value)) in metadata
  {
    if metadata != [] {
      var first, rest := metadata[0], metadata[1..];
      FirstPresent(metadata);
      PresentHolds(rest, p);
      hide Present;
      assert metadata == [first] + rest;
    } else {
      NoPairs();
    }
  }
}
