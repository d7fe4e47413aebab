/**
  Commands, queries and their results on the native wire. Only what the two ends exchange is
  modelled: a reader stops where it has what it needs.

  A double that is no integer is its eight bytes. A number is read by adding two doubles. Minus
  zero counts as an integer and has no integer of its own.
*/
module MessageCodec {
  import opened Bytes
  import opened Doubles
  import opened Objects
  import opened Utf8
  import opened Wire
  import opened Wrappers

  type F64 = b: seq<byte> | |b| == 8 witness [0, 0, 0, 0, 0, 0, 0, 0]

  /** An integer that is a double, as every integral number of the language is. */
  type Integral = n: int | Nearest(n) == n

  /** A metadata value as the framework has it; `Json` is anything with a JSON form, `Nothing` anything without. */
  datatype Value = Str(text: Text) | Number(n: Integral) | MinusZero | Double(bits: F64) | Boolean(b: bool) | BigInt(big: int) | Json(json: Text) | Nothing

  datatype Entry = Entry(key: Text, value: Value)

  /** A value as the wire carries it, and as a reader hands it over. */
  datatype Read = ReadText(text: Text) | ReadNumber(n: int) | ReadBoolean(b: bool) | ReadDouble(bits: F64)

  type ReadEntry = Field<Read>

  const TextTag: byte := 1
  const NumberTag: byte := 2
  const BooleanTag: byte := 3
  const DoubleTag: byte := 4
  const ObjectTag: byte := 5

  // ---------------------------------------------------------------------------
  // Metadata
  // ---------------------------------------------------------------------------

  /** What goes on the wire for a value. */
  function OnWire(v: Value): Option<Read> {
    match v
    case Str(t) => Some(ReadText(t))
    case Number(n) => Some(ReadNumber(n))
    case MinusZero => Some(ReadNumber(0))
    case Double(bits) => Some(ReadDouble(bits))
    case Boolean(b) => Some(ReadBoolean(b))
    case BigInt(n) => Some(ReadNumber(n))
    case Json(t) => Some(ReadText(t))
    case Nothing => None
  }

  function Wired(metadata: seq<Entry>): seq<ReadEntry> {
    if metadata == [] then []
    else
      var one := OnWire(metadata[0].value);
      (if one.Some? then [Field(metadata[0].key, one.value)] else []) + Wired(metadata[1..])
  }

  /** What a reader makes of a value on the wire. */
  function Received(r: Read): Read {
    match r
    case ReadText(t) => ReadText(Carried(t))
    case ReadNumber(n) => ReadNumber(Nearest(n))
    case _ => r
  }

  /** Text that is intact, an integer that is a double, or anything else. */
  ghost predicate Faithful(r: Read) {
    (r.ReadText? ==> Intact(r.text)) && (r.ReadNumber? ==> IsDouble(r.n))
  }

  /** A value is received as it was sent, exactly unless it is text that is not intact or an integer that is no double. */
  lemma ReceivedExactly(r: Read)
    ensures Received(r) == r <==> Faithful(r)
  {
    if r.ReadNumber? {
      NearestIsExact(r.n);
    }
    if r.ReadText? {
      CarriedExactly(r.text);
    }
  }

  function ReceivedEntry(e: ReadEntry): ReadEntry {
    Field(Carried(e.key), Received(e.value))
  }

  function ReceivedAll(es: seq<ReadEntry>): (r: seq<ReadEntry>)
    ensures |r| == |es| && forall i :: 0 <= i < |es| ==> r[i] == ReceivedEntry(es[i])
  {
    seq(|es|, i requires 0 <= i < |es| => ReceivedEntry(es[i]))
  }

  /** What metadata is at the other end. */
  function Normalised(metadata: seq<Entry>): map<Text, Read> {
    AsObject(ReceivedAll(Wired(metadata)))
  }

  ghost predicate AllFaithful(es: seq<ReadEntry>) {
    forall i :: 0 <= i < |es| ==> Intact(es[i].key) && Faithful(es[i].value)
  }

  /** The object is received as it was sent if and only if every key and every value is. */
  lemma ObjectReceivedExactly(es: seq<ReadEntry>)
    requires DistinctKeys(es)
    ensures AsObject(ReceivedAll(es)) == AsObject(es) <==> AllFaithful(es)
  {
    if AllFaithful(es) {
      forall i | 0 <= i < |es|
        ensures ReceivedEntry(es[i]) == es[i]
      {
        CarriedExactly(es[i].key);
        ReceivedExactly(es[i].value);
      }
      assert ReceivedAll(es) == es;
    }
    if AsObject(ReceivedAll(es)) == AsObject(es) {
      ObjectArrives(es, ReceivedAll(es));
      forall i | 0 <= i < |es|
        ensures Faithful(es[i].value)
      {
        assert ReceivedAll(es)[i] == es[i];
        ReceivedExactly(es[i].value);
      }
    }
  }

  predicate ReadFits(r: Read) {
    match r
    case ReadText(t) => Fits32(t)
    case ReadNumber(n) => IsI64(n)
    case ReadBoolean(_) => true
    case ReadDouble(_) => true
  }

  predicate EntryFits(e: ReadEntry) {
    Fits16(e.key) && ReadFits(e.value)
  }

  ghost predicate AllFit(es: seq<ReadEntry>) {
    forall i :: 0 <= i < |es| ==> EntryFits(es[i])
  }

  function ValueBytes(r: Read): seq<byte>
    requires ReadFits(r)
  {
    match r
    case ReadText(t) => [TextTag] + Str32(t)
    case ReadNumber(n) => [NumberTag] + I64(n)
    case ReadBoolean(b) => [BooleanTag] + [if b then 1 else 0]
    case ReadDouble(bits) => [DoubleTag] + bits
  }

  function EntryBytes(e: ReadEntry): seq<byte>
    requires EntryFits(e)
  {
    Str16(e.key) + ValueBytes(e.value)
  }

  function EntriesBytes(es: seq<ReadEntry>): seq<byte>
    requires AllFit(es)
  {
    if es == [] then [] else
      assert EntryFits(es[0]);
      EntryBytes(es[0]) + EntriesBytes(es[1..])
  }

  ghost predicate MetadataFits(metadata: seq<Entry>) {
    |Wired(metadata)| <= 0xffff && AllFit(Wired(metadata))
  }

  function MetadataBytes(metadata: seq<Entry>): seq<byte>
    requires MetadataFits(metadata)
  {
    U16(|Wired(metadata)|) + EntriesBytes(Wired(metadata))
  }

  function SkipPayload(b: seq<byte>): Parsed<()> {
    match ReadBytes16(b) case Broken => Broken case Got(_, b1) =>
    match ReadBytes16(b1) case Broken => Broken case Got(_, b2) =>
    match ReadBytes32(b2) case Broken => Broken case Got(_, b3) => Got((), b3)
  }

  /** The value behind a tag; a typed object is stepped over. */
  function ReadValue(tag: byte, b: seq<byte>): Parsed<Option<Read>> {
    if tag == TextTag then
      match ReadStr32(b) case Broken => Broken case Got(t, rest) => Got(Some(ReadText(t)), rest)
    else if tag == NumberTag then
      match ReadI64(b) case Broken => Broken case Got(n, rest) => Got(Some(ReadNumber(n)), rest)
    else if tag == BooleanTag then
      match ReadU8(b) case Broken => Broken case Got(x, rest) => Got(Some(ReadBoolean(x == 1)), rest)
    else if tag == DoubleTag then
      match ReadSlice(8, b) case Broken => Broken case Got(bits, rest) => Got(Some(ReadDouble(bits)), rest)
    else if tag == ObjectTag then
      match SkipPayload(b) case Broken => Broken case Got(_, rest) => Got(None, rest)
    else Broken
  }

  function ReadOne(b: seq<byte>): Parsed<Option<ReadEntry>> {
    match ReadStr16(b) case Broken => Broken case Got(key, b1) =>
    match ReadU8(b1) case Broken => Broken case Got(tag, b2) =>
    match ReadValue(tag, b2) case Broken => Broken case Got(value, b3) =>
    Got(if value.Some? then Some(Field(key, value.value)) else None, b3)
  }

  function ReadEntries(n: nat, b: seq<byte>): Parsed<seq<ReadEntry>> {
    if n == 0 then Got([], b)
    else match ReadOne(b)
      case Broken => Broken
      case Got(one, rest) =>
        match ReadEntries(n - 1, rest)
        case Broken => Broken
        case Got(more, after) => Got((if one.Some? then [one.value] else []) + more, after)
  }

  function ReadMetadata(b: seq<byte>): Parsed<map<Text, Read>> {
    match ReadU16(b) case Broken => Broken case Got(n, rest) =>
    match ReadEntries(n, rest) case Broken => Broken case Got(es, after) => Got(AsObject(es), after)
  }

  lemma BehindTag(tag: byte, body: seq<byte>, rest: seq<byte>)
    ensures ([tag] + body + rest)[0] == tag && ([tag] + body + rest)[1..] == body + rest
  {
  }

  lemma ValueRoundTrip(r: Read, rest: seq<byte>)
    requires ReadFits(r)
    ensures var b := ValueBytes(r) + rest; |b| > 0 && ReadValue(b[0], b[1..]) == Got(Some(Received(r)), rest)
  {
    hide Str32, I64, ReadStr32, ReadBytes32, Encode, ReadI64, SkipPayload, Carried, Nearest;
    match r {
      case ReadText(t) =>
        Str32RoundTrip(t, rest);
        BehindTag(TextTag, Str32(t), rest);
      case ReadNumber(n) =>
        SplitIsTwosComplement(n);
        I64RoundTrip(n, rest);
        BehindTag(NumberTag, I64(n), rest);
      case ReadBoolean(x) =>
        BooleanRoundTrip(x, rest);
      case ReadDouble(bits) =>
        BehindTag(DoubleTag, bits, rest);
        assert (bits + rest)[..8] == bits && (bits + rest)[8..] == rest;
    }
  }

  lemma BooleanRoundTrip(x: bool, rest: seq<byte>)
    ensures var b := ValueBytes(ReadBoolean(x)) + rest; ReadValue(b[0], b[1..]) == Got(Some(ReadBoolean(x)), rest)
  {
    var bit: byte := if x then 1 else 0;
    BehindTag(BooleanTag, [bit], rest);
    assert ([bit] + rest)[1..] == rest;
  }

  lemma EntryRoundTrip(e: ReadEntry, rest: seq<byte>)
    requires EntryFits(e)
    ensures ReadOne(EntryBytes(e) + rest) == Got(Some(ReceivedEntry(e)), rest)
  {
    ValueRoundTrip(e.value, rest);
    Str16RoundTrip(e.key, ValueBytes(e.value) + rest);
    hide Str16, ReadStr16, ReadBytes16, ReadLenient16, Encode, ValueBytes, ReadValue, Received, Carried;
    Associates(Str16(e.key), ValueBytes(e.value), rest);
  }

  lemma FirstEntry(es: seq<ReadEntry>)
    requires AllFit(es) && es != []
    ensures EntryFits(es[0]) && AllFit(es[1..]) && EntriesBytes(es) == EntryBytes(es[0]) + EntriesBytes(es[1..])
  {
  }

  lemma NoEntries(b: seq<byte>)
    ensures EntriesBytes([]) == [] && ReadEntries(0, b) == Got([], b) && Wired([]) == []
  {
  }

  lemma ReadFirstEntry(n: nat, b: seq<byte>, one: ReadEntry, rest: seq<byte>, more: seq<ReadEntry>, after: seq<byte>)
    requires n > 0 && ReadOne(b) == Got(Some(one), rest) && ReadEntries(n - 1, rest) == Got(more, after)
    ensures ReadEntries(n, b) == Got([one] + more, after)
  {
    hide ReadOne;
  }

  lemma {:induction false} EntriesRoundTrip(es: seq<ReadEntry>, rest: seq<byte>)
    requires AllFit(es)
    ensures ReadEntries(|es|, EntriesBytes(es) + rest) == Got(ReceivedAll(es), rest)
    decreases |es|
  {
    hide AllFit, EntryFits, EntryBytes, EntriesBytes, ReadOne, ReadEntries, ReceivedEntry;
    if es == [] {
      NoEntries(rest);
      assert EntriesBytes(es) + rest == rest;
    } else {
      FirstEntry(es);
      var e, more := es[0], EntriesBytes(es[1..]);
      EntriesRoundTrip(es[1..], rest);
      EntryRoundTrip(e, more + rest);
      Associates(EntryBytes(e), more, rest);
      ReadFirstEntry(|es|, EntriesBytes(es) + rest, ReceivedEntry(e), more + rest, ReceivedAll(es[1..]), rest);
      assert ReceivedAll(es) == [ReceivedEntry(e)] + ReceivedAll(es[1..]);
    }
  }

  lemma MetadataRoundTrip(metadata: seq<Entry>, rest: seq<byte>)
    requires MetadataFits(metadata)
    ensures ReadMetadata(MetadataBytes(metadata) + rest) == Got(Normalised(metadata), rest)
  {
    var es := Wired(metadata);
    EntriesRoundTrip(es, rest);
    U16RoundTrip(|es|, EntriesBytes(es) + rest);
    hide U16, GetU16, EntriesBytes, ReadEntries, Wired, AllFit, AsObject;
    Associates(U16(|es|), EntriesBytes(es), rest);
  }

  /** Metadata arrives as it is on the wire if and only if all keys and texts are intact and all integers doubles. */
  lemma MetadataExactly(metadata: seq<Entry>, rest: seq<byte>)
    requires MetadataFits(metadata) && DistinctKeys(Wired(metadata))
    ensures ReadMetadata(MetadataBytes(metadata) + rest) == Got(AsObject(Wired(metadata)), rest) <==> AllFaithful(Wired(metadata))
  {
    hide ReadMetadata, MetadataBytes, AsObject, AllFaithful, MetadataFits;
    MetadataRoundTrip(metadata, rest);
    ObjectReceivedExactly(Wired(metadata));
  }

  // ---------------------------------------------------------------------------
  // Messages
  // ---------------------------------------------------------------------------

  datatype Payload = Payload(typeName: Text, revision: Text, data: seq<byte>)

  datatype Outgoing = Outgoing(messageId: Text, name: Text, timestamp: int, payload: Payload, metadata: seq<Entry>)

  datatype Incoming = Incoming(messageId: Text, name: Text, timestamp: int, payload: Payload, metadata: map<Text, Read>)

  predicate PayloadFits(p: Payload) {
    Fits16(p.typeName) && Fits16(p.revision) && FitsBytes(p.data)
  }

  function PayloadBytes(p: Payload): seq<byte>
    requires PayloadFits(p)
  {
    Str16(p.typeName) + (Str16(p.revision) + Bytes32(p.data))
  }

  function ReadPayload(b: seq<byte>): Parsed<Payload> {
    match ReadStr16(b) case Broken => Broken case Got(typeName, b1) =>
    match ReadStr16(b1) case Broken => Broken case Got(revision, b2) =>
    match ReadBytes32(b2) case Broken => Broken case Got(data, b3) => Got(Payload(typeName, revision, data), b3)
  }

  ghost predicate MessageFits(m: Outgoing) {
    Fits16(m.messageId) && Fits16(m.name) && IsSafeInteger(m.timestamp) && PayloadFits(m.payload) && MetadataFits(m.metadata)
  }

  /** Up to the metadata, which is as far as a reader goes. */
  function MessageBytes(m: Outgoing): seq<byte>
    requires MessageFits(m)
  {
    Str16(m.messageId) + (Str16(m.name) + (SplitI64(m.timestamp) + (PayloadBytes(m.payload) + MetadataBytes(m.metadata))))
  }

  function ReadMessage(b: seq<byte>): Parsed<Incoming> {
    match ReadStr16(b) case Broken => Broken case Got(messageId, b1) =>
    match ReadStr16(b1) case Broken => Broken case Got(name, b2) =>
    match ReadI64(b2) case Broken => Broken case Got(timestamp, b3) =>
    match ReadPayload(b3) case Broken => Broken case Got(payload, b4) =>
    match ReadMetadata(b4) case Broken => Broken case Got(metadata, b5) =>
    Got(Incoming(messageId, name, timestamp, payload, metadata), b5)
  }

  function CarriedPayload(p: Payload): Payload {
    Payload(Carried(p.typeName), Carried(p.revision), p.data)
  }

  predicate PayloadIntact(p: Payload) {
    Intact(p.typeName) && Intact(p.revision)
  }

  lemma PayloadRoundTrip(p: Payload, rest: seq<byte>)
    requires PayloadFits(p)
    ensures ReadPayload(PayloadBytes(p) + rest) == Got(CarriedPayload(p), rest)
  {
    var d := Bytes32(p.data);
    Bytes32RoundTrip(p.data, rest);
    Str16RoundTrip(p.revision, d + rest);
    Str16RoundTrip(p.typeName, Str16(p.revision) + (d + rest));
    hide Str16, Bytes32, ReadStr16, ReadBytes32, ReadBytes16, ReadLenient16, Encode, Carried;
    Associates(Str16(p.typeName), Str16(p.revision) + d, rest);
    Associates(Str16(p.revision), d, rest);
  }

  lemma PayloadExactly(p: Payload)
    ensures CarriedPayload(p) == p <==> PayloadIntact(p)
  {
    CarriedExactly(p.typeName);
    CarriedExactly(p.revision);
    hide Carried, Intact;
  }

  /** What arrives of a message. */
  function Arrived(m: Outgoing): Incoming {
    Incoming(Carried(m.messageId), Carried(m.name), m.timestamp, CarriedPayload(m.payload), Normalised(m.metadata))
  }

  /** Texts as carried, the instant and the payload's bytes as sent, and metadata normalised, whatever follows. */
  lemma MessageRoundTrip(m: Outgoing, rest: seq<byte>)
    requires MessageFits(m)
    ensures ReadMessage(MessageBytes(m) + rest) == Got(Arrived(m), rest)
  {
    var t, p, d := SplitI64(m.timestamp), PayloadBytes(m.payload), MetadataBytes(m.metadata);
    MetadataRoundTrip(m.metadata, rest);
    PayloadRoundTrip(m.payload, d + rest);
    SafeRoundTrip(m.timestamp, p + (d + rest));
    Str16RoundTrip(m.name, t + (p + (d + rest)));
    Str16RoundTrip(m.messageId, Str16(m.name) + (t + (p + (d + rest))));
    hide Str16, ReadStr16, ReadBytes16, ReadLenient16, Encode, SplitI64, ReadI64, PayloadBytes, ReadPayload;
    hide MetadataBytes, ReadMetadata, MetadataFits, Normalised, Carried, CarriedPayload, PayloadFits;
    Associates(Str16(m.messageId), Str16(m.name) + (t + (p + d)), rest);
    Associates(Str16(m.name), t + (p + d), rest);
    Associates(t, p + d, rest);
    Associates(p, d, rest);
  }

  /** A message as sent, its metadata as the wire has it. */
  function Sent(m: Outgoing): Incoming {
    Incoming(m.messageId, m.name, m.timestamp, m.payload, AsObject(Wired(m.metadata)))
  }

  ghost predicate MessageIntact(m: Outgoing) {
    Intact(m.messageId) && Intact(m.name) && PayloadIntact(m.payload) && AllFaithful(Wired(m.metadata))
  }

  lemma ArrivedExactly(m: Outgoing)
    requires DistinctKeys(Wired(m.metadata))
    ensures Arrived(m) == Sent(m) <==> MessageIntact(m)
  {
    hide Carried, Intact, CarriedPayload, PayloadIntact, AllFaithful, AsObject, Wired, DistinctKeys;
    CarriedExactly(m.messageId);
    CarriedExactly(m.name);
    PayloadExactly(m.payload);
    ObjectReceivedExactly(Wired(m.metadata));
  }

  /** A message arrives as it was sent if and only if every text in it is intact and every integer in its metadata is a double. */
  lemma MessageExactly(m: Outgoing, rest: seq<byte>)
    requires MessageFits(m) && DistinctKeys(Wired(m.metadata))
    ensures ReadMessage(MessageBytes(m) + rest) == Got(Sent(m), rest) <==> MessageIntact(m)
  {
    hide ReadMessage, MessageBytes, MessageIntact, MessageFits, Sent, Arrived, DistinctKeys;
    MessageRoundTrip(m, rest);
    ArrivedExactly(m);
  }

  // ---------------------------------------------------------------------------
  // Results
  // ---------------------------------------------------------------------------

  datatype Result = Result(requestId: Text, errorCode: Text, errorMessage: Text, location: Text, payload: Option<Payload>)

  datatype Answer = Answer(errorCode: Text, errorMessage: Text, payload: Option<Payload>)

  predicate ResultFits(r: Result) {
    && Fits16(r.requestId) && Fits16(r.errorCode) && (r.payload.Some? ==> PayloadFits(r.payload.value))
    && (r.errorCode != [] ==> Fits32(r.errorMessage) && Fits16(r.location))
  }

  function ErrorBytes(r: Result): seq<byte>
    requires Fits16(r.errorCode) && (r.errorCode != [] ==> Fits32(r.errorMessage) && Fits16(r.location))
  {
    if r.errorCode == [] then [0]
    else [1] + (Str32(r.errorMessage) + (Str16(r.location) + (U16(0) + Str16(r.errorCode))))
  }

  function OptionalPayload(p: Option<Payload>): seq<byte>
    requires p.Some? ==> PayloadFits(p.value)
  {
    if p.None? then [0] else [1] + PayloadBytes(p.value)
  }

  /** No message id, no metadata, no instructions. */
  function ResultBytes(r: Result): seq<byte>
    requires ResultFits(r)
  {
    Str16([]) + (Str16(r.requestId) + (Str16(r.errorCode) + (ErrorBytes(r) + (OptionalPayload(r.payload) + (U16(0) + U16(0))))))
  }

  function SkipStrings(n: nat, b: seq<byte>): Parsed<()> {
    if n == 0 then Got((), b)
    else match ReadBytes32(b) case Broken => Broken case Got(_, rest) => SkipStrings(n - 1, rest)
  }

  function SkipError(b: seq<byte>): Parsed<()> {
    match ReadBytes32(b) case Broken => Broken case Got(_, b1) =>
    match ReadBytes16(b1) case Broken => Broken case Got(_, b2) =>
    match ReadU16(b2) case Broken => Broken case Got(n, b3) =>
    match SkipStrings(n, b3) case Broken => Broken case Got(_, b4) =>
    match ReadBytes16(b4) case Broken => Broken case Got(_, b5) => Got((), b5)
  }

  /** A failure's message, when it has one. */
  function ReadFailure(b: seq<byte>): Parsed<Text> {
    match ReadPresent(b) case Broken => Broken case Got(present, rest) =>
    if present then ReadStr32(rest) else Got([], rest)
  }

  function ReadSuccess(b: seq<byte>): Parsed<Option<Payload>> {
    match ReadPresent(b) case Broken => Broken case Got(detail, b1) =>
    match (if detail then SkipError(b1) else Got((), b1)) case Broken => Broken case Got(_, b2) =>
    match ReadPresent(b2) case Broken => Broken case Got(present, b3) =>
    if !present then Got(None, b3)
    else match ReadPayload(b3) case Broken => Broken case Got(p, b4) => Got(Some(p), b4)
  }

  /** A failure is its code and message, and nothing after them is read; a success is its payload. */
  function ReadResult(b: seq<byte>): Option<Answer> {
    match ReadBytes16(b) case Broken => None case Got(_, b1) =>
    match ReadBytes16(b1) case Broken => None case Got(_, b2) =>
    match ReadStr16(b2) case Broken => None case Got(errorCode, b3) =>
    if errorCode != [] then
      match ReadFailure(b3) case Broken => None case Got(message, _) => Some(Answer(errorCode, message, None))
    else
      match ReadSuccess(b3) case Broken => None case Got(payload, _) => Some(Answer([], [], payload))
  }

  lemma FailureRead(r: Result, rest: seq<byte>)
    requires ResultFits(r) && r.errorCode != []
    ensures var f := ReadFailure(ErrorBytes(r) + rest); f.Got? && f.value == Carried(r.errorMessage)
  {
    var more := Str16(r.location) + (U16(0) + Str16(r.errorCode));
    Str32RoundTrip(r.errorMessage, more + rest);
    hide Str16, Str32, ReadStr32, ReadBytes32, Encode, U16, Carried;
    var b := ErrorBytes(r) + rest;
    Associates([1], Str32(r.errorMessage) + more, rest);
    Associates(Str32(r.errorMessage), more, rest);
    assert b[0] == 1 && b[1..] == Str32(r.errorMessage) + (more + rest);
  }

  /** The whole detail of a failure can be stepped over. */
  lemma ErrorSkipped(r: Result, rest: seq<byte>)
    requires ResultFits(r) && r.errorCode != []
    ensures var b := ErrorBytes(r) + rest; b[0] == 1 && SkipError(b[1..]) == Got((), rest)
  {
    var m, l, c := Str32(r.errorMessage), Str16(r.location), Str16(r.errorCode);
    Str16RoundTrip(r.errorCode, rest);
    U16RoundTrip(0, c + rest);
    Str16RoundTrip(r.location, U16(0) + (c + rest));
    Str32RoundTrip(r.errorMessage, l + (U16(0) + (c + rest)));
    NothingSkipped(c + rest);
    hide Str16, Str32, ReadStr16, ReadStr32, ReadLenient16, ReadBytes16, ReadBytes32, Encode, U16, GetU16, Carried, SkipStrings;
    var b := ErrorBytes(r) + rest;
    Associates([1], m + (l + (U16(0) + c)), rest);
    Associates(m, l + (U16(0) + c), rest);
    Associates(l, U16(0) + c, rest);
    Associates(U16(0), c, rest);
    assert b[0] == 1 && b[1..] == m + (l + (U16(0) + (c + rest)));
  }

  lemma NothingSkipped(b: seq<byte>)
    ensures SkipStrings(0, b) == Got((), b)
  {
  }

  function CarriedOptional(payload: Option<Payload>): Option<Payload> {
    if payload.Some? then Some(CarriedPayload(payload.value)) else None
  }

  lemma PayloadReadBack(payload: Option<Payload>, rest: seq<byte>)
    requires payload.Some? ==> PayloadFits(payload.value)
    ensures var b := OptionalPayload(payload) + rest;
            && ReadPresent(b).Got? && (ReadPresent(b).value <==> payload.Some?)
            && (payload.None? ==> ReadPresent(b).rest == rest)
            && (payload.Some? ==> ReadPayload(ReadPresent(b).rest) == Got(CarriedPayload(payload.value), rest))
  {
    var b := OptionalPayload(payload) + rest;
    hide PayloadBytes, ReadPayload, CarriedPayload, PayloadFits;
    if payload.Some? {
      PayloadRoundTrip(payload.value, rest);
      Associates([1], PayloadBytes(payload.value), rest);
      assert b[1..] == PayloadBytes(payload.value) + rest;
    } else {
      assert b[1..] == rest;
    }
  }

  /** With an error detail in front or without, a success is its payload. */
  lemma SuccessRead(r: Result, rest: seq<byte>)
    requires ResultFits(r)
    ensures ReadSuccess(ErrorBytes(r) + (OptionalPayload(r.payload) + rest)) == Got(CarriedOptional(r.payload), rest)
  {
    var tail := OptionalPayload(r.payload) + rest;
    PayloadReadBack(r.payload, rest);
    var b := ErrorBytes(r) + tail;
    if r.errorCode != [] {
      ErrorSkipped(r, tail);
      hide ErrorBytes;
      assert ReadPresent(b) == Got(true, b[1..]);
    } else {
      assert b[1..] == tail;
      assert ReadPresent(b) == Got(false, tail);
    }
    hide ErrorBytes, OptionalPayload, SkipError, ReadPresent, ReadPayload, CarriedPayload, PayloadFits;
  }

  /**
    The error code and message as carried, if anything of the code is; otherwise the payload,
    absent or not.
  */
  lemma ResultRoundTrip(r: Result, rest: seq<byte>)
    requires ResultFits(r)
    ensures ReadResult(ResultBytes(r) + rest) ==
            Some(if Carried(r.errorCode) != [] then Answer(Carried(r.errorCode), Carried(r.errorMessage), None) else Answer([], [], CarriedOptional(r.payload)))
  {
    var tail := OptionalPayload(r.payload) + (U16(0) + U16(0));
    var e := ErrorBytes(r);
    Str16RoundTrip([], Str16(r.requestId) + (Str16(r.errorCode) + (e + (tail + rest))));
    Str16RoundTrip(r.requestId, Str16(r.errorCode) + (e + (tail + rest)));
    Str16RoundTrip(r.errorCode, e + (tail + rest));
    if r.errorCode != [] {
      FailureRead(r, tail + rest);
    }
    SuccessRead(r, U16(0) + U16(0) + rest);
    Associates(OptionalPayload(r.payload), U16(0) + U16(0), rest);
    NothingCarried(r.errorCode);
    hide Str16, ReadStr16, ReadBytes16, ReadLenient16, Encode, OptionalPayload, ReadSuccess, ReadFailure, U16, ErrorBytes, Carried, CarriedOptional;
    Associates(Str16([]), Str16(r.requestId) + (Str16(r.errorCode) + (e + tail)), rest);
    Associates(Str16(r.requestId), Str16(r.errorCode) + (e + tail), rest);
    Associates(Str16(r.errorCode), e + tail, rest);
    Associates(e, tail, rest);
  }

  lemma NothingCarried(t: Text)
    ensures Carried(t) == [] <==> t == [] || t == [Mark]
  {
  }

  /** A failure is taken for a success if and only if its code is a lone byte order mark. */
  lemma FailureReadsAsFailure(r: Result, rest: seq<byte>)
    requires ResultFits(r) && r.errorCode != []
    ensures var a := ReadResult(ResultBytes(r) + rest); a.Some? && (a.value.errorCode == [] <==> r.errorCode == [Mark])
  {
    ResultRoundTrip(r, rest);
    NothingCarried(r.errorCode);
    hide Carried, ReadResult, ResultBytes, ResultFits;
  }

  /** What was answered, as the dispatcher is to see it. */
  function Answered(r: Result): Answer {
    if r.errorCode != [] then Answer(r.errorCode, r.errorMessage, None) else Answer([], [], r.payload)
  }

  /** An answer arrives as it was given if and only if the texts the dispatcher sees of it are intact. */
  lemma ResultExactly(r: Result, rest: seq<byte>)
    requires ResultFits(r)
    ensures ReadResult(ResultBytes(r) + rest) == Some(Answered(r)) <==>
            if r.errorCode != [] then Intact(r.errorCode) && Intact(r.errorMessage) else r.payload.Some? ==> PayloadIntact(r.payload.value)
  {
    ResultRoundTrip(r, rest);
    NothingCarried(r.errorCode);
    CarriedExactly(r.errorCode);
    CarriedExactly(r.errorMessage);
    if r.payload.Some? {
      PayloadExactly(r.payload.value);
    }
    assert !Intact([Mark]);
    hide Carried, ReadResult, ResultBytes, ResultFits, Intact, PayloadIntact, CarriedPayload;
  }

  // ---------------------------------------------------------------------------
  // Writing and reading step by step
  // ---------------------------------------------------------------------------

  /** Two 32-bit halves for a safe integer, a wide integer for the rest of the i64 range. */
  method WriteI64Number(w: Writer, n: int) returns (ok: bool)
    requires w.Valid()
    modifies w, w.buf
    ensures w.Valid() && (w.buf == old(w.buf) || fresh(w.buf))
    ensures ok == IsI64(n) && (ok ==> w.Written() == old(w.Written()) + I64(n))
  {
    hide I64, SplitI64;
    if IsSafeInteger(n) {
      SplitIsTwosComplement(n);
      w.Write(SplitI64(n));
      return true;
    }
    if !IsI64(n) {
      return false;
    }
    w.Write(I64(n));
    ok := true;
  }

  /** One entry of metadata that has a value. */
  method WriteEntry(w: Writer, key: Text, value: Value) returns (ok: bool)
    requires w.Valid() && OnWire(value).Some?
    modifies w, w.buf
    ensures w.Valid() && (w.buf == old(w.buf) || fresh(w.buf))
    ensures ok == EntryFits(Field(key, OnWire(value).value))
    ensures ok ==> w.Written() == old(w.Written()) + EntryBytes(Field(key, OnWire(value).value))
  {
    hide Str16, ValueBytes, ReadFits;
    ghost var before := w.Written();
    ok := WriteStr16(w, key);
    if ok {
      ok := WriteValue(w, value);
      if ok {
        Associates(before, Str16(key), ValueBytes(OnWire(value).value));
      }
    }
  }

  method WriteValue(w: Writer, value: Value) returns (ok: bool)
    requires w.Valid() && OnWire(value).Some?
    modifies w, w.buf
    ensures w.Valid() && (w.buf == old(w.buf) || fresh(w.buf))
    ensures ok == ReadFits(OnWire(value).value) && (ok ==> w.Written() == old(w.Written()) + ValueBytes(OnWire(value).value))
  {
    hide Str32, I64;
    match value {
      case Str(t) => ok := WriteTextValue(w, t);
      case Json(t) => ok := WriteTextValue(w, t);
      case Number(n) => ok := WriteNumberValue(w, n);
      case MinusZero => ok := WriteNumberValue(w, 0);
      case BigInt(n) => ok := WriteNumberValue(w, n);
      case Double(bits) =>
        w.Write([DoubleTag] + bits);
        ok := true;
      case Boolean(b) =>
        w.Write([BooleanTag] + [if b then 1 else 0]);
        ok := true;
    }
  }

  method WriteTextValue(w: Writer, t: Text) returns (ok: bool)
    requires w.Valid()
    modifies w, w.buf
    ensures w.Valid() && (w.buf == old(w.buf) || fresh(w.buf))
    ensures ok == Fits32(t) && (ok ==> w.Written() == old(w.Written()) + ([TextTag] + Str32(t)))
  {
    hide Str32;
    ghost var before := w.Written();
    w.Write([TextTag]);
    ok := WriteStr32(w, t);
    if ok {
      Associates(before, [TextTag], Str32(t));
    }
  }

  method WriteNumberValue(w: Writer, n: int) returns (ok: bool)
    requires w.Valid()
    modifies w, w.buf
    ensures w.Valid() && (w.buf == old(w.buf) || fresh(w.buf))
    ensures ok == IsI64(n) && (ok ==> w.Written() == old(w.Written()) + ([NumberTag] + I64(n)))
  {
    hide I64;
    ghost var before := w.Written();
    w.Write([NumberTag]);
    ok := WriteI64Number(w, n);
    if ok {
      Associates(before, [NumberTag], I64(n));
    }
  }

  lemma FirstWired(metadata: seq<Entry>)
    requires metadata != []
    ensures Wired(metadata) == OneWired(metadata[0]) + Wired(metadata[1..])
  {
  }

  function OneWired(e: Entry): seq<ReadEntry> {
    var one := OnWire(e.value);
    if one.Some? then [Field(e.key, one.value)] else []
  }

  lemma {:induction false} WiredSplits(a: seq<Entry>, b: seq<Entry>)
    ensures Wired(a + b) == Wired(a) + Wired(b)
  {
    hide Wired, OneWired;
    if a == [] {
      NoEntries([]);
      assert a + b == b && [] + Wired(b) == Wired(b);
    } else {
      FirstWired(a);
      FirstWired(a + b);
      assert (a + b)[1..] == a[1..] + b;
      WiredSplits(a[1..], b);
    }
  }

  lemma WiredSnoc(metadata: seq<Entry>, e: Entry)
    ensures Wired(metadata + [e]) == Wired(metadata) + OneWired(e)
  {
    WiredSplits(metadata, [e]);
    FirstWired([e]);
    NoEntries([]);
    hide Wired, OneWired;
    assert [e][1..] == [] && OneWired(e) + [] == OneWired(e);
  }

  lemma {:induction false} EntriesSnoc(es: seq<ReadEntry>, e: ReadEntry)
    requires AllFit(es) && EntryFits(e)
    ensures AllFit(es + [e]) && EntriesBytes(es + [e]) == EntriesBytes(es) + EntryBytes(e)
  {
    var all := es + [e];
    assert AllFit(all);
    FirstEntry(all);
    hide EntryFits, EntryBytes, EntriesBytes;
    if es == [] {
      NoEntries([]);
      assert all[1..] == [];
    } else {
      FirstEntry(es);
      assert all[1..] == es[1..] + [e] && all[0] == es[0];
      EntriesSnoc(es[1..], e);
      hide AllFit;
      Associates(EntryBytes(es[0]), EntriesBytes(es[1..]), EntryBytes(e));
    }
  }

  /** The count goes into the space left for it once the entries are known. */
  method WriteMetadata(w: Writer, metadata: seq<Entry>) returns (ok: bool)
    requires w.Valid()
    modifies w, w.buf
    ensures w.Valid() && (w.buf == old(w.buf) || fresh(w.buf))
    ensures ok == MetadataFits(metadata) && (ok ==> w.Written() == old(w.Written()) + MetadataBytes(metadata))
  {
    hide U16, EntriesBytes, EntryBytes, EntryFits, Wired;
    ghost var before := w.Written();
    var countAt, count, i := w.pos, 0, 0;
    w.Write(U16(0));
    NoEntries([]);
    while i < |metadata|
      invariant 0 <= i <= |metadata| && w.Valid() && (w.buf == old(w.buf) || fresh(w.buf))
      invariant AllFit(Wired(metadata[..i])) && count == |Wired(metadata[..i])|
      invariant w.Written() == before + (U16(0) + EntriesBytes(Wired(metadata[..i])))
    {
      ghost var es := Wired(metadata[..i]);
      assert metadata[..i + 1] == metadata[..i] + [metadata[i]];
      WiredSnoc(metadata[..i], metadata[i]);
      if metadata[i].value.Nothing? {
        assert Wired(metadata[..i + 1]) == es;
      } else {
        ghost var e := Field(metadata[i].key, OnWire(metadata[i].value).value);
        assert Wired(metadata[..i + 1]) == es + [e];
        ok := WriteEntry(w, metadata[i].key, metadata[i].value);
        if !ok {
          assert metadata == metadata[..i + 1] + metadata[i + 1..];
          WiredSplits(metadata[..i + 1], metadata[i + 1..]);
          assert Wired(metadata)[|es|] == e;
          return;
        }
        EntriesSnoc(es, e);
        Regroup3(before, U16(0), EntriesBytes(es), EntryBytes(e));
        count := count + 1;
      }
      i := i + 1;
    }
    assert metadata[..i] == metadata;
    if count > 0xffff {
      return false;
    }
    ghost var body := EntriesBytes(Wired(metadata));
    w.Patch(countAt, U16(count));
    Patched(before, U16(0), body, U16(count));
    ok := true;
  }

  method WritePayload(w: Writer, p: Payload) returns (ok: bool)
    requires w.Valid()
    modifies w, w.buf
    ensures w.Valid() && (w.buf == old(w.buf) || fresh(w.buf))
    ensures ok == PayloadFits(p) && (ok ==> w.Written() == old(w.Written()) + PayloadBytes(p))
  {
    hide Str16, Bytes32, Encode, Fits16;
    ghost var before := w.Written();
    ok := WriteStr16(w, p.typeName);
    if ok {
      ok := WriteStr16(w, p.revision);
    }
    if ok {
      ok := WriteBytes32(w, p.data);
    }
    if ok {
      assert w.Written() == before + (Str16(p.typeName) + (Str16(p.revision) + Bytes32(p.data)));
    }
  }

  /** A command or a query, with its instructions ready and its sender behind them. */
  method WriteMessage(w: Writer, m: Outgoing, instructions: seq<byte>, clientId: Text, componentName: Text) returns (ok: bool)
    requires w.Valid()
    modifies w, w.buf
    ensures w.Valid() && (w.buf == old(w.buf) || fresh(w.buf))
    ensures ok == (MessageFits(m) && Fits16(clientId) && Fits16(componentName))
    ensures ok ==> w.Written() == old(w.Written()) + (MessageBytes(m) + (instructions + (Str16(clientId) + Str16(componentName))))
  {
    hide Str16, SplitI64, PayloadBytes, MetadataBytes, MetadataFits, PayloadFits;
    ghost var before := w.Written();
    ok := WriteStr16(w, m.messageId);
    if !ok { return; }
    ok := WriteStr16(w, m.name);
    if !ok { return; }
    if !IsSafeInteger(m.timestamp) { return false; }
    w.Write(SplitI64(m.timestamp));
    ok := WritePayload(w, m.payload);
    if !ok { return; }
    ok := WriteMetadata(w, m.metadata);
    if !ok { return; }
    Regroup5(before, Str16(m.messageId), Str16(m.name), SplitI64(m.timestamp), PayloadBytes(m.payload), MetadataBytes(m.metadata));
    assert w.Written() == before + MessageBytes(m);
    hide MessageBytes;
    w.Write(instructions);
    ok := WriteStr16(w, clientId);
    if !ok { return; }
    ok := WriteStr16(w, componentName);
    if !ok { return; }
    Regroup5(before, MessageBytes(m), instructions, Str16(clientId), Str16(componentName), []);
    assert Str16(componentName) + [] == Str16(componentName);
  }

  lemma Regroup5(before: seq<byte>, a: seq<byte>, b: seq<byte>, c: seq<byte>, d: seq<byte>, e: seq<byte>)
    ensures before + a + b + c + d + e == before + (a + (b + (c + (d + e))))
    ensures e == [] ==> before + a + b + c + d == before + (a + (b + (c + d)))
  {
    assert e == [] ==> d + e == d;
  }

  method WriteResult(w: Writer, r: Result) returns (ok: bool)
    requires w.Valid()
    modifies w, w.buf
    ensures w.Valid() && (w.buf == old(w.buf) || fresh(w.buf))
    ensures ok == ResultFits(r) && (ok ==> w.Written() == old(w.Written()) + ResultBytes(r))
  {
    hide Str16, U16, ErrorBytes, OptionalPayload, PayloadFits;
    ghost var before := w.Written();
    ok := WriteStr16(w, []);
    ok := WriteStr16(w, r.requestId);
    if !ok { return; }
    ok := WriteStr16(w, r.errorCode);
    if !ok { return; }
    ghost var head := w.Written();
    ok := WriteError(w, r);
    if !ok { return; }
    ok := WriteOptionalPayload(w, r.payload);
    if !ok { return; }
    w.Write(U16(0));
    w.Write(U16(0));
    var e, p, none := ErrorBytes(r), OptionalPayload(r.payload), U16(0);
    Regroup5(head, e, p, none, none, []);
    var rest := e + (p + (none + none));
    Regroup5(before, Str16([]), Str16(r.requestId), Str16(r.errorCode), rest, []);
  }

  method WriteOptionalPayload(w: Writer, payload: Option<Payload>) returns (ok: bool)
    requires w.Valid()
    modifies w, w.buf
    ensures w.Valid() && (w.buf == old(w.buf) || fresh(w.buf))
    ensures ok == (payload.Some? ==> PayloadFits(payload.value))
    ensures ok ==> w.Written() == old(w.Written()) + OptionalPayload(payload)
  {
    hide PayloadBytes, PayloadFits;
    ghost var before := w.Written();
    if payload.None? {
      w.Write([0]);
      return true;
    }
    w.Write([1]);
    ok := WritePayload(w, payload.value);
    if ok {
      Associates(before, [1], PayloadBytes(payload.value));
    }
  }

  method WriteError(w: Writer, r: Result) returns (ok: bool)
    requires w.Valid() && Fits16(r.errorCode)
    modifies w, w.buf
    ensures w.Valid() && (w.buf == old(w.buf) || fresh(w.buf))
    ensures ok == (r.errorCode != [] ==> Fits32(r.errorMessage) && Fits16(r.location))
    ensures ok ==> w.Written() == old(w.Written()) + ErrorBytes(r)
  {
    hide Str16, Str32, U16;
    ghost var before := w.Written();
    if r.errorCode == [] {
      w.Write([0]);
      return true;
    }
    w.Write([1]);
    ok := WriteStr32(w, r.errorMessage);
    if !ok { return; }
    ok := WriteStr16(w, r.location);
    if !ok { return; }
    w.Write(U16(0));
    ok := WriteStr16(w, r.errorCode);
    Regroup5(before, [1], Str32(r.errorMessage), Str16(r.location), U16(0), Str16(r.errorCode));
  }

  /** The loop over the entries of a metadata list, assigning each to the object. */
  method ReadMetadataStepwise(b: seq<byte>) returns (metadata: Parsed<map<Text, Read>>)
    ensures metadata == ReadMetadata(b)
  {
    hide ReadOne, ReadU16, ReadEntries, AsObject;
    var count := ReadU16(b);
    if count.Broken? {
      return Broken;
    }
    var n, rest, out := count.value, count.rest, map[];
    ghost var all, done := ReadEntries(n, rest), [];
    NoFields<Read>();
    while n > 0
      invariant out == AsObject(done)
      invariant ReadEntries(n, rest).Broken? <==> all.Broken?
      invariant all.Got? ==> all.value == done + ReadEntries(n, rest).value && all.rest == ReadEntries(n, rest).rest
    {
      ReadEntriesStep(n, rest);
      var one := ReadOne(rest);
      if one.Broken? {
        return Broken;
      }
      rest, n := one.rest, n - 1;
      ghost var more := ReadEntries(n, rest);
      if one.value.Some? {
        ghost var e := one.value.value;
        assert more.Got? ==> done + ([e] + more.value) == done + [e] + more.value;
        OneMoreField(done, e);
        out := out[one.value.value.key := one.value.value.value];
        done := done + [e];
      } else {
        assert more.Got? ==> [] + more.value == more.value;
      }
    }
    NoEntries(rest);
    assert all.Got? && done + [] == done;
    metadata := Got(out, rest);
  }

  lemma ReadEntriesStep(n: nat, b: seq<byte>)
    requires n > 0
    ensures ReadOne(b).Broken? ==> ReadEntries(n, b).Broken?
    ensures ReadOne(b).Got? ==>
              var one, more := ReadOne(b).value, ReadEntries(n - 1, ReadOne(b).rest);
              ReadEntries(n, b) == if more.Broken? then Broken else Got((if one.Some? then [one.value] else []) + more.value, more.rest)
  {
    hide ReadOne;
  }

  /** A bigint comes back as the nearest double, so it and its key come back unchanged if and only if it is one and the key is intact. */
  lemma BigIntsExactly(key: Text, n: int, rest: seq<byte>)
    requires Fits16(key) && IsI64(n)
    ensures MetadataFits([Entry(key, BigInt(n))])
    ensures ReadMetadata(MetadataBytes([Entry(key, BigInt(n))]) + rest) == Got(map[Carried(key) := ReadNumber(Nearest(n))], rest)
    ensures ReadMetadata(MetadataBytes([Entry(key, BigInt(n))]) + rest) == Got(map[key := ReadNumber(n)], rest) <==> IsDouble(n) && Intact(key)
  {
    hide IsDouble, Nearest, ReadMetadata, MetadataBytes, MetadataFits, Carried, Intact, Fits16;
    assert OnWire(BigInt(n)) == Some(ReadNumber(n)) && Received(ReadNumber(n)) == ReadNumber(Nearest(n));
    OneEntryRoundTrip(Entry(key, BigInt(n)), rest);
    NearestIsExact(n);
    CarriedExactly(key);
    OneEntryMaps(Carried(key), ReadNumber(Nearest(n)), key, ReadNumber(n));
  }

  lemma OneEntryMaps(k: Text, v: Read, l: Text, w: Read)
    ensures map[k := v] == map[l := w] <==> k == l && v == w
  {
    if map[k := v] == map[l := w] {
      assert k in map[l := w] && map[k := v][k] == v;
    }
  }

  lemma OneEntryRoundTrip(e: Entry, rest: seq<byte>)
    requires OnWire(e.value).Some? && EntryFits(Field(e.key, OnWire(e.value).value))
    ensures MetadataFits([e])
    ensures ReadMetadata(MetadataBytes([e]) + rest) == Got(map[Carried(e.key) := Received(OnWire(e.value).value)], rest)
  {
    hide Received, ReadMetadata, MetadataBytes, OnWire, Carried;
    OneEntry(e);
    MetadataRoundTrip([e], rest);
    var w := Field(e.key, OnWire(e.value).value);
    var r := ReceivedEntry(w);
    assert ReceivedAll([w]) == [r];
    OneField(r);
  }

  /** An integral number comes back as it was, minus zero as zero. */
  lemma NumbersComeBack(key: Text, n: Integral, rest: seq<byte>)
    requires Fits16(key) && IsI64(n)
    ensures MetadataFits([Entry(key, Number(n))])
    ensures ReadMetadata(MetadataBytes([Entry(key, Number(n))]) + rest) == Got(map[Carried(key) := ReadNumber(n)], rest)
    ensures MetadataFits([Entry(key, MinusZero)])
    ensures ReadMetadata(MetadataBytes([Entry(key, MinusZero)]) + rest) == Got(map[Carried(key) := ReadNumber(0)], rest)
  {
    hide ReadMetadata, MetadataBytes, MetadataFits, Carried, Fits16;
    assert OnWire(Number(n)) == Some(ReadNumber(n)) && OnWire(MinusZero) == Some(ReadNumber(0));
    OneEntryRoundTrip(Entry(key, Number(n)), rest);
    OneEntryRoundTrip(Entry(key, MinusZero), rest);
  }

  lemma OneEntry(e: Entry)
    requires OnWire(e.value).Some? && EntryFits(Field(e.key, OnWire(e.value).value))
    ensures Wired([e]) == [Field(e.key, OnWire(e.value).value)] && MetadataFits([e])
  {
    assert [e][1..] == [];
    assert Wired([e][1..]) == [];
  }

  /** 2^53 + 1 is accepted and comes back as 2^53. */
  lemma BigIntIsRounded(key: Text, rest: seq<byte>)
    requires Fits16(key)
    ensures var n := 0x20_0000_0000_0001;
            && MetadataFits([Entry(key, BigInt(n))])
            && ReadMetadata(MetadataBytes([Entry(key, BigInt(n))]) + rest) == Got(map[Carried(key) := ReadNumber(n - 1)], rest)
  {
    FirstInexact();
    hide Nearest, Fits16, Carried, ReadMetadata, MetadataBytes, MetadataFits;
    BigIntsExactly(key, 0x20_0000_0000_0001, rest);
  }

  /** Two keys that differ in a byte order mark arrive as one, with the later value. */
  lemma MarkedKeysCollapse(key: Text, first: Value, second: Value, rest: seq<byte>)
    requires Intact(key) && OnWire(first).Some? && OnWire(second).Some?
    requires MetadataFits([Entry([Mark] + key, first), Entry(key, second)])
    ensures ReadMetadata(MetadataBytes([Entry([Mark] + key, first), Entry(key, second)]) + rest) ==
            Got(map[key := Received(OnWire(second).value)], rest)
  {
    hide ReadMetadata, MetadataBytes, MetadataFits, Received, OnWire, Wired, Carried, AsObject, Intact;
    var a, b := Entry([Mark] + key, first), Entry(key, second);
    MetadataRoundTrip([a, b], rest);
    MarkedIsCarried(key);
    TwoWired(a, b);
    LaterStands(Field(a.key, OnWire(first).value), Field(key, OnWire(second).value));
  }

  lemma TwoWired(a: Entry, b: Entry)
    requires OnWire(a.value).Some? && OnWire(b.value).Some?
    ensures Wired([a, b]) == [Field(a.key, OnWire(a.value).value), Field(b.key, OnWire(b.value).value)]
  {
    hide OnWire;
    assert [a, b][1..] == [b] && [b][1..] == [];
    assert Wired([b][1..]) == [];
    assert Wired([a, b][1..]) == Wired([b]);
  }

  lemma LaterStands(x: ReadEntry, y: ReadEntry)
    requires Carried(x.key) == Carried(y.key)
    ensures AsObject(ReceivedAll([x, y])) == map[Carried(y.key) := Received(y.value)]
  {
    hide Carried, Received, AsObject;
    assert ReceivedAll([x, y]) == [ReceivedEntry(x)] + [ReceivedEntry(y)];
    OneMoreField([ReceivedEntry(x)], ReceivedEntry(y));
    OneField(ReceivedEntry(x));
  }

  // ---------------------------------------------------------------------------
  // The layout, field by field
  // ---------------------------------------------------------------------------

  lemma Short(t: Text)
    requires |t| <= 3 && forall i :: 0 <= i < |t| ==> t[i] < 0x80
    ensures Fits16(t) && Str16(t) == [|t|, 0] + t
    ensures Fits32(t) && Str32(t) == [|t|, 0, 0, 0] + t
  {
    AsciiEncodes(t);
    hide Encode;
  }

  /** Each kind of value behind its tag. */
  lemma KnownValues()
    ensures Fits32([0x61]) && ValueBytes(ReadText([0x61])) == [1, 1, 0, 0, 0, 0x61]
    ensures ValueBytes(ReadNumber(-2)) == [2, 0xfe, 0xff, 0xff, 0xff, 0xff, 0xff, 0xff, 0xff]
    ensures ValueBytes(ReadBoolean(true)) == [3, 1] && ValueBytes(ReadBoolean(false)) == [3, 0]
    ensures ValueBytes(ReadDouble([0, 0, 0, 0, 0, 0, 0xf8, 0x3f])) == [4, 0, 0, 0, 0, 0, 0, 0xf8, 0x3f]
  {
    Short([0x61]);
    assert I64(-2) == [0xfe, 0xff, 0xff, 0xff, 0xff, 0xff, 0xff, 0xff];
    hide I64, Str32;
  }

  /** Two-byte length and bytes come first, and then the rest. */
  ghost predicate Begins(b: seq<byte>, t: Text, rest: seq<byte>) {
    ReadBytes16(b) == Got(Encode(t), rest)
  }

  /** Id, name, instant, payload type, revision and bytes, then the count of metadata entries, read with nothing but lengths. */
  lemma MessageInOrder(m: Outgoing, rest: seq<byte>) returns (b1: seq<byte>, b2: seq<byte>, b3: seq<byte>, b4: seq<byte>, b5: seq<byte>)
    requires MessageFits(m)
    ensures Begins(MessageBytes(m) + rest, m.messageId, b1) && Begins(b1, m.name, b2)
    ensures |b2| >= 8 && b2[..8] == I64(m.timestamp) && Begins(b2[8..], m.payload.typeName, b3) && Begins(b3, m.payload.revision, b4)
    ensures ReadBytes32(b4) == Got(m.payload.data, b5) && b5 == MetadataBytes(m.metadata) + rest
  {
    var t, d := SplitI64(m.timestamp), MetadataBytes(m.metadata);
    var x, y, z := Str16(m.payload.typeName), Str16(m.payload.revision), Bytes32(m.payload.data);
    SplitIsTwosComplement(m.timestamp);
    b5 := d + rest;
    b4 := z + b5;
    b3 := y + b4;
    b2 := t + (x + b3);
    b1 := Str16(m.name) + b2;
    Bytes32RoundTrip(m.payload.data, b5);
    Str16RoundTrip(m.payload.revision, b4);
    Str16RoundTrip(m.payload.typeName, b3);
    Str16RoundTrip(m.name, b2);
    Str16RoundTrip(m.messageId, b1);
    hide Str16, Bytes32, ReadStr16, ReadBytes32, ReadLenient16, ReadBytes16, Encode, Carried, Fits16, SplitI64, I64, MetadataBytes, MetadataFits;
    assert MessageBytes(m) + rest == Str16(m.messageId) + b1 by {
      PayloadJoins(x, y, z, b5);
      Associates(Str16(m.messageId), Str16(m.name) + (t + ((x + (y + z)) + d)), rest);
      Associates(Str16(m.name), t + ((x + (y + z)) + d), rest);
      Associates(t, (x + (y + z)) + d, rest);
      Associates(x + (y + z), d, rest);
    }
    assert b2[..8] == t && b2[8..] == x + b3;
  }

  lemma PayloadJoins(x: seq<byte>, y: seq<byte>, z: seq<byte>, rest: seq<byte>)
    ensures x + (y + z) + rest == x + (y + (z + rest))
  {
  }

  /** No message id, the request id and the error code; a failure goes on with a one and its message, a success with a zero and its payload. */
  lemma ResultInOrder(r: Result, rest: seq<byte>) returns (b1: seq<byte>, b2: seq<byte>, b3: seq<byte>)
    requires ResultFits(r)
    ensures Begins(ResultBytes(r) + rest, [], b1) && Begins(b1, r.requestId, b2) && Begins(b2, r.errorCode, b3)
    ensures r.errorCode == [] ==> b3 == [0] + (OptionalPayload(r.payload) + (U16(0) + U16(0) + rest))
    ensures r.errorCode != [] ==> |b3| > 0 && b3[0] == 1 && ReadBytes32(b3[1..]).Got? && ReadBytes32(b3[1..]).value == Encode(r.errorMessage)
  {
    var e, tail := ErrorBytes(r), OptionalPayload(r.payload) + (U16(0) + U16(0));
    b3 := e + (tail + rest);
    b2 := Str16(r.errorCode) + b3;
    b1 := Str16(r.requestId) + b2;
    Str16RoundTrip([], b1);
    Str16RoundTrip(r.requestId, b2);
    Str16RoundTrip(r.errorCode, b3);
    if r.errorCode != [] {
      FailureDetail(r, tail + rest);
    } else {
      Associates(OptionalPayload(r.payload), U16(0) + U16(0), rest);
    }
    hide Str16, ReadStr16, ReadBytes16, ReadBytes32, ReadLenient16, Encode, OptionalPayload, U16, Carried, Fits16;
    Associates(Str16([]), Str16(r.requestId) + (Str16(r.errorCode) + (e + tail)), rest);
    Associates(Str16(r.requestId), Str16(r.errorCode) + (e + tail), rest);
    Associates(Str16(r.errorCode), e + tail, rest);
    Associates(e, tail, rest);
  }

  lemma FailureDetail(r: Result, rest: seq<byte>)
    requires ResultFits(r) && r.errorCode != []
    ensures var b := ErrorBytes(r) + rest;
            |b| > 0 && b[0] == 1 && ReadBytes32(b[1..]).Got? && ReadBytes32(b[1..]).value == Encode(r.errorMessage)
  {
    var more := Str16(r.location) + (U16(0) + Str16(r.errorCode));
    Str32RoundTrip(r.errorMessage, more + rest);
    hide Str16, Str32, ReadStr32, ReadBytes32, Encode, U16, Carried;
    var b := ErrorBytes(r) + rest;
    Associates([1], Str32(r.errorMessage) + more, rest);
    Associates(Str32(r.errorMessage), more, rest);
    assert b[0] == 1 && b[1..] == Str32(r.errorMessage) + (more + rest);
  }

  // ---------------------------------------------------------------------------
  // What of metadata goes on the wire
  // ---------------------------------------------------------------------------

  ghost predicate EntriesDiffer(metadata: seq<Entry>) {
    forall i, j :: 0 <= i < j < |metadata| ==> metadata[i].key != metadata[j].key
  }

  /** The value a reader is to find for a value that was sent. */
  ghost predicate StandsFor(r: Read, v: Value) {
    match v
    case Str(t) => r == ReadText(t)
    case Json(t) => r == ReadText(t)
    case Number(n) => r == ReadNumber(n)
    case MinusZero => r == ReadNumber(0)
    case BigInt(n) => r == ReadNumber(n)
    case Double(bits) => r == ReadDouble(bits)
    case Boolean(b) => r == ReadBoolean(b)
    case Nothing => false
  }

  lemma {:induction false} WiredEntries(metadata: seq<Entry>, f: ReadEntry)
    ensures f in Wired(metadata) <==> exists i :: 0 <= i < |metadata| && metadata[i].key == f.key && StandsFor(f.value, metadata[i].value)
  {
    if metadata == [] {
      NoEntries([]);
    } else {
      var first, rest := metadata[0], metadata[1..];
      FirstWired(metadata);
      WiredEntries(rest, f);
      assert f in OneWired(first) <==> first.key == f.key && StandsFor(f.value, first.value);
      hide Wired, StandsFor, OneWired;
      if i :| 0 <= i < |rest| && rest[i].key == f.key && StandsFor(f.value, rest[i].value) {
        assert metadata[i + 1] == rest[i];
      }
      if i :| 0 <= i < |metadata| && metadata[i].key == f.key && StandsFor(f.value, metadata[i].value) {
        assert i > 0 ==> rest[i - 1] == metadata[i];
      }
    }
  }

  lemma {:induction false} WiredKeysDiffer(metadata: seq<Entry>)
    requires EntriesDiffer(metadata)
    ensures DistinctKeys(Wired(metadata))
  {
    if metadata == [] {
      NoEntries([]);
    } else {
      var first, rest := metadata[0], metadata[1..];
      FirstWired(metadata);
      WiredKeysDiffer(rest);
      forall f | f in Wired(rest)
        ensures f.key != first.key
      {
        WiredEntries(rest, f);
        var i :| 0 <= i < |rest| && rest[i].key == f.key && StandsFor(f.value, rest[i].value);
        assert metadata[i + 1] == rest[i];
      }
      hide Wired;
      var all := Wired(metadata);
      assert |OneWired(first)| <= 1;
      forall i, j | 0 <= i < j < |all|
        ensures all[i].key != all[j].key
      {
        var n := |OneWired(first)|;
        assert all[j] == Wired(rest)[j - n];
        if i >= n {
          assert all[i] == Wired(rest)[i - n];
        } else {
          assert all[j] in Wired(rest);
        }
      }
    }
  }

  /** Metadata on the wire has every key with a value that has a wire form, with the value that stands for it, and nothing else. */
  lemma WireHolds(metadata: seq<Entry>, key: Text, value: Read)
    requires EntriesDiffer(metadata)
    ensures DistinctKeys(Wired(metadata))
    ensures var o := AsObject(Wired(metadata));
            (key in o && o[key] == value) <==> exists i :: 0 <= i < |metadata| && metadata[i].key == key && StandsFor(value, metadata[i].value)
  {
    WiredKeysDiffer(metadata);
    ObjectHolds(Wired(metadata), key, value);
    WiredEntries(metadata, Field(key, value));
  }
}
