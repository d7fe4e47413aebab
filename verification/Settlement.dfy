/**
  Slots of the native transport: who is waiting on which stream id, and what every request
  and stream is told.

  A sink, a reply parser and a failure callback are the application's code: while one runs,
  requests, streams, cancels and a close may all happen, so a frame is two steps, before
  and after its sink. Frames are read one at a time, and never after the connection closed.
*/
module Settlement {
  import opened Wrappers

  const MaxId: nat := 0xffff_ffff

  /** `key` tells one request or stream from every other; ids on the wire are reused. */
  datatype Slot = Slot(key: nat, unary: bool)

  // ---------------------------------------------------------------------------
  // Stream ids
  // ---------------------------------------------------------------------------

  /** The id `k` places after `last`, zero skipped. */
  function Place(last: nat, k: nat): (id: nat)
    requires last <= MaxId && k <= MaxId
    ensures k >= 1 ==> 1 <= id <= MaxId
  {
    if last + k <= MaxId then last + k else last + k - MaxId
  }

  /** The first free id after `last`: everything in between is taken. */
  ghost predicate IsNext(last: nat, taken: set<nat>, id: nat) {
    && last <= MaxId && id !in taken
    && exists k :: IsFirstFree(last, taken, id, k)
  }

  ghost predicate IsFirstFree(last: nat, taken: set<nat>, id: nat, k: nat)
    requires last <= MaxId
  {
    1 <= k <= MaxId && id == Place(last, k) && forall j :: 1 <= j < k ==> Place(last, j) in taken
  }

  // ---------------------------------------------------------------------------
  // Steps
  // ---------------------------------------------------------------------------

  /** What a request or stream is told. `Sink(last)` is a frame, the last one when the slot went with it. */
  datatype Event = Sink(last: bool) | Fail | Threw | Cancel | Rejected

  datatype Call = Call(key: nat, event: Event)

  /** The sink of a frame at work. */
  datatype Active = Active(id: nat, slot: Slot)

  /**
    `kinds[key]` says whether a request or stream is unary, `failing` is what a close has yet
    to fail, `calls` is everything told so far, and `lost` are those that will never be told.
  */
  datatype State = State(slots: map<nat, Slot>, last: nat, closed: bool, active: Option<Active>, failing: seq<Slot>,
                         kinds: seq<bool>, calls: seq<Call>, lost: set<nat>)

  const Initial := State(map[], 0, false, None, [], [], [], {})

  datatype Step =
    | Start(unary: bool, id: nat, wrote: bool)
    | FrameArrives(id: nat, end: bool)
    | SinkReturns
    | SinkThrows
    | FailedArrives(id: nat, decodes: bool)
    | Cancelling(id: nat)
    | Shutdown(order: seq<Slot>)
    | FailNext

  function Drop(slots: map<nat, Slot>, id: nat): map<nat, Slot> {
    map i | i in slots && i != id :: slots[i]
  }

  function Told(s: State, key: nat, event: Event): State {
    s.(calls := s.calls + [Call(key, event)])
  }

  /** The slot is there before the frame is written, and gone again if that fails. */
  function Started(s: State, unary: bool, id: nat, wrote: bool): State {
    var key := |s.kinds|;
    var t := s.(last := id, kinds := s.kinds + [unary]);
    if wrote then t.(slots := t.slots[id := Slot(key, unary)]) else Told(t, key, Rejected)
  }

  function Arrived(s: State, id: nat, end: bool): State
    requires id in s.slots
  {
    var slot := s.slots[id];
    var last := slot.unary || end;
    Told(s.(slots := if last then Drop(s.slots, id) else s.slots, active := Some(Active(id, slot))), slot.key, Sink(last))
  }

  /** A stream whose sink throws is over; whatever sits at its id is deleted. */
  function SinkThrew(s: State): State
    requires s.active.Some?
  {
    var a := s.active.value;
    var hit := if a.id in s.slots && s.slots[a.id] != a.slot then {s.slots[a.id].key} else {};
    Told(s.(slots := Drop(s.slots, a.id), active := None, lost := s.lost + hit), a.slot.key, Threw)
  }

  ghost predicate IsOrder(slots: map<nat, Slot>, order: seq<Slot>) {
    && (forall id :: id in slots ==> slots[id] in order)
    && (forall i :: 0 <= i < |order| ==> IsLive(slots, order[i]))
    && (forall i, j :: 0 <= i < j < |order| ==> order[i] != order[j])
  }

  ghost predicate IsLive(slots: map<nat, Slot>, slot: Slot) {
    exists id :: id in slots && slots[id] == slot
  }

  ghost predicate Takes(s: State, step: Step, s': State) {
    match step
    case Start(unary, id, wrote) =>
      IsNext(s.last, s.slots.Keys, id) && (wrote ==> !s.closed) && s' == Started(s, unary, id, wrote)
    case FrameArrives(id, end) =>
      !s.closed && s.active.None? && id in s.slots && s' == Arrived(s, id, end)
    case SinkReturns =>
      s.active.Some? && s.failing == [] && s' == s.(active := None)
    case SinkThrows =>
      s.active.Some? && s.failing == [] && !s.active.value.slot.unary && s' == SinkThrew(s)
    case FailedArrives(id, decodes) =>
      && !s.closed && s.active.None? && id in s.slots
      && var t := s.(slots := Drop(s.slots, id));
         s' == if decodes then Told(t, s.slots[id].key, Fail) else t.(lost := t.lost + {s.slots[id].key})
    case Cancelling(id) =>
      id in s.slots && !s.slots[id].unary && s' == Told(s.(slots := Drop(s.slots, id)), s.slots[id].key, Cancel)
    case Shutdown(order) =>
      !s.closed && IsOrder(s.slots, order) && s' == s.(closed := true, slots := map[], failing := order)
    case FailNext =>
      s.failing != [] && s' == Told(s.(failing := s.failing[1..]), s.failing[0].key, Fail)
  }

  ghost predicate NextState(s: State, s': State) {
    exists step :: Takes(s, step, s')
  }

  /** The step that leads to the run's `i`-th state is one of the protocol's. */
  ghost predicate StepAt(run: seq<State>, i: nat) {
    0 < i < |run| ==> NextState(run[i - 1], run[i])
  }

  ghost predicate Run(run: seq<State>) {
    && |run| > 0 && run[0] == Initial
    && forall i: nat :: StepAt(run, i)
  }

  // ---------------------------------------------------------------------------
  // The transport object
  // ---------------------------------------------------------------------------

  class Slots {
    var slots: map<nat, Slot>
    var lastStream: nat
    var closed: bool
    var kinds: seq<bool>
    var calls: seq<Call>
    var failing: seq<Slot>

    ghost predicate Valid()
      reads this
    {
      && lastStream <= MaxId && (forall id :: id in slots ==> 1 <= id <= MaxId && slots[id].key < |kinds|)
      && (forall i, j :: i in slots && j in slots && i != j ==> slots[i].key != slots[j].key)
    }

    constructor ()
      ensures Valid() && slots == map[] && lastStream == 0 && !closed && kinds == [] && calls == [] && failing == []
    {
      slots, lastStream, closed, kinds, calls, failing := map[], 0, false, [], [], [];
    }

    /** The do-while over ids ends because not every id is taken. */
    method NextStream() returns (id: nat)
      requires Valid() && |slots| < MaxId
      modifies this`lastStream
      ensures Valid() && id == lastStream && 1 <= id <= MaxId && IsNext(old(lastStream), slots.Keys, id)
    {
      var start := lastStream;
      lastStream := if lastStream == MaxId then 1 else lastStream + 1;
      ghost var k := 1;
      while lastStream in slots
        invariant 1 <= k <= |slots| + 1 && lastStream == Place(start, k) && 1 <= lastStream
        invariant forall j :: 1 <= j < k ==> Place(start, j) in slots
        decreases |slots| + 1 - k
      {
        DistinctPlaces(start, k, slots.Keys);
        lastStream := if lastStream == MaxId then 1 else lastStream + 1;
        k := k + 1;
      }
      id := lastStream;
      assert IsFirstFree(start, slots.Keys, id, k);
    }

    ghost function View(active: Option<Active>, lost: set<nat>): State
      reads this
    {
      State(slots, lastStream, closed, active, failing, kinds, calls, lost)
    }

    /** `request` and `open` alike; `writes` is whether the frame can be encoded. */
    method Begin(unary: bool, writes: bool) returns (id: nat, ok: bool)
      requires Valid() && |slots| < MaxId
      modifies this
      ensures Valid() && ok == (writes && !old(closed)) && IsNext(old(lastStream), old(slots.Keys), id)
      ensures forall active, lost :: View(active, lost) == Started(old(View(active, lost)), unary, id, ok)
    {
      hide IsNext;
      id := NextStream();
      slots := slots[id := Slot(|kinds|, unary)];
      kinds := kinds + [unary];
      ok := writes && !closed;
      if !ok {
        assert Drop(slots, id) == old(slots);
        slots := map i | i in slots && i != id :: slots[i];
        calls := calls + [Call(|kinds| - 1, Rejected)];
      }
    }

    /** `cancel` does nothing once the id belongs to somebody else. */
    method CancelStream(id: nat, slot: Slot)
      requires Valid()
      modifies this
      ensures Valid()
      ensures id in old(slots) && old(slots[id]) == slot ==>
                forall active, lost :: View(active, lost) == Told(old(View(active, lost)).(slots := Drop(old(slots), id)), slot.key, Cancel)
      ensures !(id in old(slots) && old(slots[id]) == slot) ==> forall active, lost :: View(active, lost) == old(View(active, lost))
    {
      if id !in slots || slots[id] != slot {
        return;
      }
      slots := map i | i in slots && i != id :: slots[i];
      calls := calls + [Call(slot.key, Cancel)];
    }

    /** The part of `frame` before the sink: a unary or last frame takes the slot with it. */
    method FrameArrives(id: nat, end: bool) returns (found: Option<Slot>)
      requires Valid()
      modifies this
      ensures Valid()
      ensures id !in old(slots) ==> found.None? && forall active, lost :: View(active, lost) == old(View(active, lost))
      ensures id in old(slots) ==> found == Some(old(slots)[id])
      ensures id in old(slots) ==> forall lost :: View(Some(Active(id, old(slots)[id])), lost) == Arrived(old(View(None, lost)), id, end)
    {
      if id !in slots {
        return None;
      }
      var slot := slots[id];
      if slot.unary || end {
        slots := map i | i in slots && i != id :: slots[i];
      }
      calls := calls + [Call(slot.key, Sink(slot.unary || end))];
      found := Some(slot);
    }

    /** The part after a sink that threw: whatever is at the id goes, and the stream is failed. */
    method SinkThrows(id: nat, slot: Slot)
      requires Valid()
      modifies this
      ensures Valid()
      ensures forall lost :: var t := SinkThrew(old(View(Some(Active(id, slot)), lost))); View(None, t.lost) == t
    {
      slots := map i | i in slots && i != id :: slots[i];
      calls := calls + [Call(slot.key, Threw)];
    }

    /** A failure takes the slot before it is decoded. */
    method FailedArrives(id: nat, decodes: bool)
      requires Valid()
      modifies this
      ensures Valid() && slots == Drop(old(slots), id)
      ensures calls == if id in old(slots) && decodes then old(calls) + [Call(old(slots)[id].key, Fail)] else old(calls)
    {
      if id !in slots {
        assert Drop(slots, id) == slots;
        return;
      }
      var slot := slots[id];
      slots := map i | i in slots && i != id :: slots[i];
      if decodes {
        calls := calls + [Call(slot.key, Fail)];
      }
    }

    /** Every open slot is failed once, in some order, and a second close does nothing. */
    method Shutdown() returns (order: seq<Slot>)
      requires Valid()
      modifies this
      ensures Valid() && closed
      ensures old(closed) ==> calls == old(calls) && slots == old(slots)
      ensures !old(closed) ==> slots == map[] && IsOrder(old(slots), order) && calls == old(calls) + Failures(order)
    {
      hide IsOrder, Failures;
      order := [];
      if closed {
        return;
      }
      closed := true;
      order := Values();
      slots := map[];
      FailAll(order);
    }

    method FailAll(order: seq<Slot>)
      modifies this`calls
      ensures calls == old(calls) + Failures(order)
    {
      var i := 0;
      while i < |order|
        invariant 0 <= i <= |order| && calls == old(calls) + Failures(order[..i])
      {
        assert order[..i + 1] == order[..i] + [order[i]];
        FailuresSnoc(order[..i], order[i]);
        hide Failures;
        calls := calls + [Call(order[i].key, Fail)];
        i := i + 1;
      }
      assert order[..i] == order;
    }

    method Values() returns (order: seq<Slot>)
      requires Valid()
      ensures IsOrder(slots, order)
    {
      hide IsOrderOf, IsOrder;
      order := [];
      var todo := slots.Keys;
      NoneInOrder(slots);
      assert slots.Keys - todo == {};
      while todo != {}
        invariant todo <= slots.Keys && IsOrderOf(slots, slots.Keys - todo, order)
        decreases |todo|
      {
        var id :| id in todo;
        OneMoreInOrder(slots, slots.Keys - todo, order, id);
        assert slots.Keys - (todo - {id}) == slots.Keys - todo + {id};
        order := order + [slots[id]];
        todo := todo - {id};
      }
      WholeOrder(slots, slots.Keys - todo, order);
    }
  }

  /** The slots of these ids, each once. */
  ghost predicate IsOrderOf(slots: map<nat, Slot>, ids: set<nat>, order: seq<Slot>) {
    && (forall id :: id in ids && id in slots ==> slots[id] in order)
    && (forall slot :: slot in order ==> IsOf(slots, ids, slot))
    && (forall i, j :: 0 <= i < j < |order| ==> order[i] != order[j])
  }

  ghost predicate IsOf(slots: map<nat, Slot>, ids: set<nat>, slot: Slot) {
    exists id :: id in ids && id in slots && slots[id] == slot
  }

  lemma OneMoreInOrder(slots: map<nat, Slot>, ids: set<nat>, order: seq<Slot>, id: nat)
    requires IsOrderOf(slots, ids, order) && id in slots && id !in ids
    requires forall i, j :: i in slots && j in slots && i != j ==> slots[i].key != slots[j].key
    ensures IsOrderOf(slots, ids + {id}, order + [slots[id]])
  {
    forall slot | slot in order
      ensures IsOf(slots, ids + {id}, slot) && slot != slots[id]
    {
      assert IsOf(slots, ids, slot);
      var k :| k in ids && k in slots && slots[k] == slot;
      assert k in ids + {id};
    }
    assert IsOf(slots, ids + {id}, slots[id]) by {
      assert id in ids + {id};
    }
  }

  lemma WholeOrder(slots: map<nat, Slot>, ids: set<nat>, order: seq<Slot>)
    requires IsOrderOf(slots, ids, order) && forall id :: id in slots ==> id in ids
    ensures IsOrder(slots, order)
  {
    forall i | 0 <= i < |order|
      ensures IsLive(slots, order[i])
    {
      assert order[i] in order;
      assert IsOf(slots, ids, order[i]);
    }
  }

  lemma NoneInOrder(slots: map<nat, Slot>)
    ensures IsOrderOf(slots, {}, [])
  {
  }

  function Failures(order: seq<Slot>): seq<Call> {
    if order == [] then [] else [Call(order[0].key, Fail)] + Failures(order[1..])
  }

  lemma {:induction false} FailuresSnoc(order: seq<Slot>, slot: Slot)
    ensures Failures(order + [slot]) == Failures(order) + [Call(slot.key, Fail)]
  {
    if order == [] {
      assert order + [slot] == [slot] && [slot][1..] == [];
      assert Failures([slot]) == [Call(slot.key, Fail)] + Failures([slot][1..]);
    } else {
      assert (order + [slot])[1..] == order[1..] + [slot];
      FailuresSnoc(order[1..], slot);
    }
  }

  /** The first `k` places after `last` are different ids, so that many ids are taken when all of them are. */
  lemma DistinctPlaces(last: nat, k: nat, taken: set<nat>)
    requires last <= MaxId && k <= MaxId && forall j :: 1 <= j <= k ==> Place(last, j) in taken
    ensures k <= |taken|
  {
    PlacesCount(last, k);
    assert PlacesTo(last, k) <= taken by {
      PlacesWithin(last, k, taken);
    }
    SmallerSet(PlacesTo(last, k), taken);
  }

  /** There is a next id, so the search for it ends, if and only if not every id is taken. */
  lemma NextExistsExactly(last: nat, taken: set<nat>)
    requires last <= MaxId && forall id :: id in taken ==> 1 <= id <= MaxId
    ensures (exists id :: IsNext(last, taken, id)) <==> |taken| < MaxId
  {
    if id :| IsNext(last, taken, id) {
      AllPlaces(MaxId, id);
      forall t | t in taken
        ensures t in PlacesTo(0, MaxId)
      {
        AllPlaces(MaxId, t);
      }
      PlacesCount(0, MaxId);
      SmallerSet(taken + {id}, PlacesTo(0, MaxId));
    }
    if |taken| < MaxId {
      var k := FirstFree(last, taken, 1);
      assert IsNext(last, taken, Place(last, k));
    }
  }

  lemma {:induction false} AllPlaces(k: nat, id: nat)
    requires 1 <= id <= k <= MaxId
    ensures id in PlacesTo(0, k)
  {
    if id < k {
      AllPlaces(k - 1, id);
    }
  }

  lemma {:induction false} FirstFree(last: nat, taken: set<nat>, k: nat) returns (r: nat)
    requires last <= MaxId && 1 <= k <= MaxId && |taken| < MaxId && forall j :: 1 <= j < k ==> Place(last, j) in taken
    ensures 1 <= r <= MaxId && IsFirstFree(last, taken, Place(last, r), r) && Place(last, r) !in taken
    decreases MaxId - k
  {
    if Place(last, k) !in taken {
      r := k;
    } else {
      if k == MaxId {
        DistinctPlaces(last, MaxId, taken);
        assert false;
      }
      r := FirstFree(last, taken, k + 1);
    }
  }

  function PlacesTo(last: nat, k: nat): set<nat>
    requires last <= MaxId && k <= MaxId
  {
    if k == 0 then {} else PlacesTo(last, k - 1) + {Place(last, k)}
  }

  lemma {:induction false} PlacesWithin(last: nat, k: nat, taken: set<nat>)
    requires last <= MaxId && k <= MaxId && forall j :: 1 <= j <= k ==> Place(last, j) in taken
    ensures PlacesTo(last, k) <= taken
  {
    if k > 0 {
      PlacesWithin(last, k - 1, taken);
    }
  }

  lemma {:induction false} PlacesBefore(last: nat, k: nat, id: nat)
    requires last <= MaxId && k <= MaxId && id in PlacesTo(last, k)
    ensures exists j :: 1 <= j <= k && id == Place(last, j)
  {
    if id != Place(last, k) {
      PlacesBefore(last, k - 1, id);
    }
  }

  lemma {:induction false} PlacesCount(last: nat, k: nat)
    requires last <= MaxId && k <= MaxId
    ensures |PlacesTo(last, k)| == k
  {
    if k > 0 {
      PlacesCount(last, k - 1);
      if Place(last, k) in PlacesTo(last, k - 1) {
        PlacesBefore(last, k - 1, Place(last, k));
        assert false;
      }
    }
  }

  // ---------------------------------------------------------------------------
  // Invariant
  // ---------------------------------------------------------------------------

  function LiveKeys(slots: map<nat, Slot>): set<nat> {
    set id | id in slots :: slots[id].key
  }

  function KeysIn(order: seq<Slot>): set<nat> {
    set slot | slot in order :: slot.key
  }

  /** Nothing more is due after one of these. */
  predicate Ends(e: Event) {
    e != Sink(false)
  }

  function OverKeys(calls: seq<Call>): set<nat> {
    set c | c in calls && Ends(c.event) :: c.key
  }

  function ThrewKeys(calls: seq<Call>): set<nat> {
    set c | c in calls && c.event == Threw :: c.key
  }

  function Places(s: State): set<nat> {
    LiveKeys(s.slots) + KeysIn(s.failing) + OverKeys(s.calls) + s.lost
  }

  predicate Genuine(s: State, slot: Slot) {
    slot.key < |s.kinds| && s.kinds[slot.key] == slot.unary
  }

  ghost predicate SlotsInv(s: State) {
    && s.last <= MaxId
    && (forall id :: id in s.slots ==> 1 <= id <= MaxId && Genuine(s, s.slots[id]))
    && (forall i, j :: i in s.slots && j in s.slots && i != j ==> s.slots[i].key != s.slots[j].key)
    && (s.closed ==> s.slots == map[]) && (!s.closed ==> s.failing == [])
    && (forall slot :: slot in s.failing ==> Genuine(s, slot))
    && (forall i, j :: 0 <= i < j < |s.failing| ==> s.failing[i].key != s.failing[j].key)
  }

  ghost predicate AreAllBelow(keys: set<nat>, n: nat) {
    forall k: nat :: k in keys <==> k < n
  }

  /** Everything started is live, waiting for a close to fail it, over, or lost, and only one of these. */
  ghost predicate PlacesInv(s: State) {
    && AreAllBelow(Places(s), |s.kinds|)
    && LiveKeys(s.slots) !! KeysIn(s.failing) !! OverKeys(s.calls) !! s.lost
  }

  /** A sink at work is of something not lost that has not thrown. */
  ghost predicate ActiveInv(s: State) {
    s.active.Some? ==>
      && Genuine(s, s.active.value.slot) && s.active.value.slot.key !in s.lost && s.active.value.slot.key !in ThrewKeys(s.calls)
      && forall id :: id in s.slots && s.slots[id].key == s.active.value.slot.key ==> id == s.active.value.id
  }

  /** After an ending call nothing follows but one throw, and after that nothing; unary requests never throw. */
  ghost predicate CallsInv(s: State) {
    && (forall c :: c in s.calls ==> c.key < |s.kinds| && (c.event.Threw? || c.event.Cancel? ==> !s.kinds[c.key]))
    && (forall i, j :: 0 <= i < j < |s.calls| ==> MayFollow(s.calls[i], s.calls[j]))
  }

  predicate MayFollow(a: Call, b: Call) {
    a.key == b.key ==> a.event != Threw && (Ends(a.event) ==> b.event == Threw)
  }

  ghost predicate Inv(s: State) {
    SlotsInv(s) && PlacesInv(s) && ActiveInv(s) && CallsInv(s)
  }

  lemma LiveWithout(slots: map<nat, Slot>, id: nat)
    requires id in slots && forall i, j :: i in slots && j in slots && i != j ==> slots[i].key != slots[j].key
    ensures LiveKeys(Drop(slots, id)) == LiveKeys(slots) - {slots[id].key}
  {
    forall k
      ensures k in LiveKeys(Drop(slots, id)) <==> k in LiveKeys(slots) - {slots[id].key}
    {
      if k in LiveKeys(slots) && k != slots[id].key {
        var i :| i in slots && slots[i].key == k;
        assert i in Drop(slots, id);
      }
    }
  }

  lemma ToldKeys(calls: seq<Call>, c: Call)
    ensures OverKeys(calls + [c]) == OverKeys(calls) + if Ends(c.event) then {c.key} else {}
    ensures ThrewKeys(calls + [c]) == ThrewKeys(calls) + if c.event == Threw then {c.key} else {}
    ensures ThrewKeys(calls) <= OverKeys(calls)
  {
    assert forall d :: d in calls + [c] <==> d in calls || d == c;
  }

  /** One more call, to something that is not over or whose sink throws for the first time. */
  lemma CallKeepsCalls(s: State, s': State, c: Call)
    requires CallsInv(s) && s'.calls == s.calls + [c] && s.kinds <= s'.kinds && c.key < |s'.kinds|
    requires c.event.Threw? || c.event.Cancel? ==> !s'.kinds[c.key]
    requires c.key !in ThrewKeys(s.calls) && (c.event == Threw || c.key !in OverKeys(s.calls))
    ensures CallsInv(s')
  {
    forall i, j | 0 <= i < j < |s'.calls|
      ensures MayFollow(s'.calls[i], s'.calls[j])
    {
      if j == |s.calls| {
        assert s.calls[i] in s.calls;
        assert s.calls[i].key == c.key && s.calls[i].event == Threw ==> c.key in ThrewKeys(s.calls);
        assert s.calls[i].key == c.key && Ends(s.calls[i].event) ==> c.key in OverKeys(s.calls);
      } else {
        assert MayFollow(s.calls[i], s.calls[j]);
      }
    }
  }

  lemma StartKeepsSlots(s: State, step: Step, s': State)
    requires SlotsInv(s) && PlacesInv(s) && step.Start? && Takes(s, step, s')
    ensures SlotsInv(s')
  {
    var key := |s.kinds|;
    assert key !in Places(s);
    forall id | id in s.slots
      ensures Genuine(s', s.slots[id]) && s.slots[id].key != key
    {
      assert s.slots[id].key in LiveKeys(s.slots);
    }
    hide PlacesInv, IsNext;
  }

  lemma StartKeepsPlaces(s: State, step: Step, s': State)
    requires PlacesInv(s) && step.Start? && Takes(s, step, s')
    ensures PlacesInv(s')
  {
    var key := |s.kinds|;
    ToldKeys(s.calls, Call(key, Rejected));
    assert key !in Places(s);
    hide IsNext, OverKeys, KeysIn;
    if step.wrote {
      assert s'.slots[step.id].key == key;
      forall k | k in LiveKeys(s.slots)
        ensures k in LiveKeys(s'.slots)
      {
        var i :| i in s.slots && s.slots[i].key == k;
        assert s'.slots[i].key == k;
      }
      assert LiveKeys(s'.slots) == LiveKeys(s.slots) + {key};
    }
    assert Places(s') == Places(s) + {key};
  }

  lemma StartKeepsInv(s: State, step: Step, s': State)
    requires Inv(s) && step.Start? && Takes(s, step, s')
    ensures Inv(s')
  {
    StartKeepsSlots(s, step, s');
    StartKeepsPlaces(s, step, s');
    var key := |s.kinds|;
    assert key !in Places(s);
    ToldKeys(s.calls, Call(key, Rejected));
    hide SlotsInv, PlacesInv, IsNext;
    if !step.wrote {
      CallKeepsCalls(s, s', Call(key, Rejected));
    }
    hide OverKeys;
  }

  lemma ArrivalKeepsInv(s: State, step: Step, s': State)
    requires Inv(s) && step.FrameArrives? && Takes(s, step, s')
    ensures Inv(s')
  {
    var slot := s.slots[step.id];
    var c := Call(slot.key, Sink(slot.unary || step.end));
    ToldKeys(s.calls, c);
    LiveWithout(s.slots, step.id);
    assert slot.key in LiveKeys(s.slots);
    CallKeepsCalls(s, s', c);
    assert Places(s') == Places(s);
  }

  lemma ThrowKeepsInv(s: State, step: Step, s': State)
    requires Inv(s) && step.SinkThrows? && Takes(s, step, s')
    ensures Inv(s')
  {
    var a := s.active.value;
    var c := Call(a.slot.key, Threw);
    ToldKeys(s.calls, c);
    CallKeepsCalls(s, s', c);
    if a.id in s.slots {
      LiveWithout(s.slots, a.id);
      assert s.slots[a.id].key in LiveKeys(s.slots);
    } else {
      assert Drop(s.slots, a.id) == s.slots;
    }
    assert a.slot.key in Places(s);
    assert KeysIn(s.failing) == {};
    assert a.slot.key in LiveKeys(s.slots) ==> a.id in s.slots && s.slots[a.id] == a.slot;
    assert Places(s') == Places(s);
  }

  lemma FailureKeepsInv(s: State, step: Step, s': State)
    requires Inv(s) && step.FailedArrives? && Takes(s, step, s')
    ensures Inv(s')
  {
    var slot := s.slots[step.id];
    var c := Call(slot.key, Fail);
    ToldKeys(s.calls, c);
    LiveWithout(s.slots, step.id);
    assert slot.key in LiveKeys(s.slots);
    if step.decodes {
      CallKeepsCalls(s, s', c);
    }
    assert Places(s') == Places(s);
  }

  lemma CancelKeepsInv(s: State, step: Step, s': State)
    requires Inv(s) && step.Cancelling? && Takes(s, step, s')
    ensures Inv(s')
  {
    var slot := s.slots[step.id];
    var c := Call(slot.key, Cancel);
    ToldKeys(s.calls, c);
    LiveWithout(s.slots, step.id);
    assert slot.key in LiveKeys(s.slots);
    CallKeepsCalls(s, s', c);
    assert Places(s') == Places(s);
  }

  lemma ShutdownKeepsInv(s: State, step: Step, s': State)
    requires Inv(s) && step.Shutdown? && Takes(s, step, s')
    ensures Inv(s')
  {
    forall k
      ensures k in LiveKeys(s.slots) <==> k in KeysIn(step.order)
    {
      if k in KeysIn(step.order) {
        var slot :| slot in step.order && slot.key == k;
        var i :| 0 <= i < |step.order| && step.order[i] == slot;
      }
    }
    forall i, j | 0 <= i < j < |step.order|
      ensures step.order[i].key != step.order[j].key
    {
      assert step.order[i] != step.order[j];
    }
    assert KeysIn(s.failing) == {} == LiveKeys(s'.slots);
    assert Places(s') == Places(s);
  }

  lemma FailNextKeepsInv(s: State, step: Step, s': State)
    requires Inv(s) && step.FailNext? && Takes(s, step, s')
    ensures Inv(s')
  {
    var slot := s.failing[0];
    var c := Call(slot.key, Fail);
    ToldKeys(s.calls, c);
    assert slot in s.failing;
    assert slot.key in KeysIn(s.failing);
    CallKeepsCalls(s, s', c);
    assert s.failing == [slot] + s.failing[1..];
    assert forall other :: other in s.failing[1..] ==> other in s.failing;
    assert KeysIn(s.failing[1..]) == KeysIn(s.failing) - {slot.key};
    assert Places(s') == Places(s);
  }

  lemma StepKeepsInv(s: State, step: Step, s': State)
    requires Inv(s) && Takes(s, step, s')
    ensures Inv(s')
  {
    match step {
      case Start(_, _, _) => StartKeepsInv(s, step, s');
      case FrameArrives(_, _) => ArrivalKeepsInv(s, step, s');
      case SinkReturns => assert Places(s') == Places(s);
      case SinkThrows => ThrowKeepsInv(s, step, s');
      case FailedArrives(_, _) => FailureKeepsInv(s, step, s');
      case Cancelling(_) => CancelKeepsInv(s, step, s');
      case Shutdown(_) => ShutdownKeepsInv(s, step, s');
      case FailNext => FailNextKeepsInv(s, step, s');
    }
  }

  lemma {:induction false} RunKeepsInv(run: seq<State>, i: nat)
    requires Run(run) && i < |run|
    ensures Inv(run[i])
  {
    if i > 0 {
      RunKeepsInv(run, i - 1);
      assert StepAt(run, i);
      var step :| Takes(run[i - 1], step, run[i]);
      hide Inv, Takes;
      StepKeepsInv(run[i - 1], step, run[i]);
    }
  }

  // ---------------------------------------------------------------------------
  // Results over whole runs
  // ---------------------------------------------------------------------------

  /** Live ids are nonzero 32-bit numbers, and no request or stream has two. */
  lemma LiveIdsAreSound(run: seq<State>, n: nat, i: nat, j: nat)
    requires Run(run) && n < |run| && i in run[n].slots && j in run[n].slots
    ensures 1 <= i <= MaxId && (i != j ==> run[n].slots[i].key != run[n].slots[j].key)
  {
    RunKeepsInv(run, n);
  }

  /** The transport has closed and every callback has returned. */
  ghost predicate Settled(s: State) {
    s.closed && s.failing == [] && s.active.None?
  }

  predicate Settles(s: State, key: nat, i: nat) {
    i < |s.calls| && s.calls[i].key == key && Ends(s.calls[i].event)
  }

  /** At no time has a unary request been settled twice. */
  lemma SettlesAtMostOnce(run: seq<State>, n: nat, key: nat, i: nat, j: nat)
    requires Run(run) && n < |run| && key < |run[n].kinds| && run[n].kinds[key]
    requires Settles(run[n], key, i) && Settles(run[n], key, j)
    ensures i == j
  {
    RunKeepsInv(run, n);
    var s := run[n];
    assert s.calls[i] in s.calls && s.calls[j] in s.calls;
    assert i < j ==> MayFollow(s.calls[i], s.calls[j]);
    assert j < i ==> MayFollow(s.calls[j], s.calls[i]);
  }

  /** Once closed, everything ever started has been told how it ended, exactly unless it is lost. */
  lemma SettledUnlessLost(run: seq<State>, n: nat, key: nat)
    requires Run(run) && n < |run| && Settled(run[n]) && key < |run[n].kinds|
    ensures (exists i :: Settles(run[n], key, i)) <==> key !in run[n].lost
  {
    RunKeepsInv(run, n);
    var s := run[n];
    assert LiveKeys(s.slots) == {} && KeysIn(s.failing) == {} && key in Places(s);
    hide Inv;
    OverMeansTold(s, key);
  }

  lemma OverMeansTold(s: State, key: nat)
    ensures key in OverKeys(s.calls) <==> exists i :: Settles(s, key, i)
  {
    if key in OverKeys(s.calls) {
      var c :| c in s.calls && Ends(c.event) && c.key == key;
      var i :| 0 <= i < |s.calls| && s.calls[i] == c;
      assert Settles(s, key, i);
    }
    if i: nat :| Settles(s, key, i) {
      assert s.calls[i] in s.calls;
    }
  }

  /** The two ways to be lost: an undecodable failure, and a throwing sink whose id somebody else has by now. */
  ghost predicate Loses(s: State, step: Step) {
    || (step.FailedArrives? && !step.decodes)
    || (step.SinkThrows? && s.active.Some? && s.active.value.id in s.slots && s.slots[s.active.value.id] != s.active.value.slot)
  }

  lemma LostExactlyThen(s: State, step: Step, s': State)
    requires Inv(s) && Takes(s, step, s')
    ensures s'.lost != s.lost <==> Loses(s, step)
    ensures s.lost <= s'.lost
  {
    if step.FailedArrives? || step.SinkThrows? {
      var id := if step.FailedArrives? then step.id else s.active.value.id;
      if id in s.slots {
        assert s.slots[id].key in LiveKeys(s.slots);
        assert s.slots[id].key !in s.lost;
      }
    }
  }

  /** The step takes this key's slot away without telling it anything. */
  ghost predicate LosesKey(s: State, step: Step, key: nat) {
    || (step.FailedArrives? && !step.decodes && step.id in s.slots && s.slots[step.id].key == key)
    || (step.SinkThrows? && s.active.Some? && s.active.value.id in s.slots
        && s.slots[s.active.value.id] != s.active.value.slot && s.slots[s.active.value.id].key == key)
  }

  lemma StepLoses(s: State, step: Step, s': State, key: nat)
    requires Takes(s, step, s')
    ensures key in s'.lost <==> key in s.lost || LosesKey(s, step, key)
  {
  }

  /** A key is lost exactly when some step so far took its slot away untold. */
  lemma {:induction false} LostByAStep(run: seq<State>, steps: seq<Step>, n: nat, key: nat)
    requires RunsBy(run, steps) && n < |run|
    ensures key in run[n].lost <==> exists i :: 0 <= i < n && LosesKey(run[i], steps[i], key)
  {
    if n > 0 {
      LostByAStep(run, steps, n - 1, key);
      assert Takes(run[n - 1], steps[n - 1], run[n - 1 + 1]);
      hide Takes, LosesKey;
      StepLoses(run[n - 1], steps[n - 1], run[n], key);
    }
  }

  /** After the close: a request or stream was never told how it ended if and only if some step of the run lost it. */
  lemma UntoldExactlyWhenLost(run: seq<State>, steps: seq<Step>, key: nat)
    requires RunsBy(run, steps) && Settled(run[|steps|]) && key < |run[|steps|].kinds|
    ensures (forall i :: !Settles(run[|steps|], key, i)) <==> exists i :: 0 <= i < |steps| && LosesKey(run[i], steps[i], key)
  {
    StepsMakeARun(run, steps);
    SettledUnlessLost(run, |steps|, key);
    LostByAStep(run, steps, |steps|, key);
  }

  lemma StepsMakeARun(run: seq<State>, steps: seq<Step>)
    requires RunsBy(run, steps)
    ensures Run(run)
  {
    forall i: nat
      ensures StepAt(run, i)
    {
      if 0 < i < |run| {
        assert Takes(run[i - 1], steps[i - 1], run[i - 1 + 1]);
      }
    }
  }

  ghost predicate RunsBy(run: seq<State>, steps: seq<Step>) {
    |steps| + 1 == |run| && run[0] == Initial && forall i :: 0 <= i < |steps| ==> Takes(run[i], steps[i], run[i + 1])
  }

  lemma {:induction false} NothingLost(run: seq<State>, steps: seq<Step>, n: nat)
    requires RunsBy(run, steps) && n < |run| && forall i :: 0 <= i < n ==> !Loses(run[i], steps[i])
    ensures Inv(run[n]) && run[n].lost == {}
  {
    if n > 0 {
      NothingLost(run, steps, n - 1);
      assert Takes(run[n - 1], steps[n - 1], run[n - 1 + 1]);
      hide Inv, Takes, Loses;
      StepKeepsInv(run[n - 1], steps[n - 1], run[n]);
      LostExactlyThen(run[n - 1], steps[n - 1], run[n]);
    }
  }

  /** In a run without those, every request is settled exactly once by the time the transport has closed. */
  lemma SettledExactlyOnce(run: seq<State>, steps: seq<Step>, key: nat) returns (i: nat)
    requires RunsBy(run, steps) && forall i :: 0 <= i < |steps| ==> !Loses(run[i], steps[i])
    requires Settled(run[|steps|]) && key < |run[|steps|].kinds| && run[|steps|].kinds[key]
    ensures forall j :: Settles(run[|steps|], key, j) <==> j == i
  {
    var n := |steps|;
    StepsMakeARun(run, steps);
    NothingLost(run, steps, n);
    SettledUnlessLost(run, n, key);
    i :| Settles(run[n], key, i);
    forall j: nat | Settles(run[n], key, j)
      ensures j == i
    {
      SettlesAtMostOnce(run, n, key, i, j);
    }
  }

  /**
    No callback follows an end, a failure, a cancel or a close, unless the sink throws after
    it; and a sink throws only once.
  */
  lemma NothingAfterTheEnd(run: seq<State>, n: nat, i: nat, j: nat)
    requires Run(run) && n < |run| && i < j < |run[n].calls|
    requires run[n].calls[i].key == run[n].calls[j].key && Ends(run[n].calls[i].event)
    ensures run[n].calls[j].event == Threw && run[n].calls[i].event != Threw
  {
    RunKeepsInv(run, n);
    assert MayFollow(run[n].calls[i], run[n].calls[j]);
  }

  /** The throw that follows an end comes from a sink that threw with its slot already gone. */
  lemma ThrowAfterTheEnd(s: State, s': State)
    requires Inv(s) && Takes(s, SinkThrows, s')
    ensures s.active.value.slot.key in OverKeys(s.calls) <==>
            !(s.active.value.id in s.slots && s.slots[s.active.value.id] == s.active.value.slot)
  {
    var a := s.active.value;
    assert a.slot.key in Places(s) && KeysIn(s.failing) == {};
    assert a.id in s.slots ==> s.slots[a.id].key in LiveKeys(s.slots);
  }

  // ---------------------------------------------------------------------------
  // Losing a request
  // ---------------------------------------------------------------------------

  ghost predicate Reachable(s: State) {
    exists run :: Run(run) && run[|run| - 1] == s
  }

  lemma Extend(s: State, step: Step, s': State)
    requires Reachable(s) && Takes(s, step, s')
    ensures Reachable(s')
  {
    var run :| Run(run) && run[|run| - 1] == s;
    assert NextState(s, s');
    var longer := run + [s'];
    forall i: nat
      ensures StepAt(longer, i)
    {
      if i < |run| {
        assert StepAt(run, i);
      }
    }
    assert Run(longer);
  }

  lemma ReachableInv(s: State)
    requires Reachable(s)
    ensures Inv(s)
  {
    var run :| Run(run) && run[|run| - 1] == s;
    RunKeepsInv(run, |run| - 1);
  }

  /** One stream on id 1, and ids used up to `n` by requests that came and went. */
  ghost predicate OneStream(s: State, n: nat) {
    s.slots.Keys == {1} && !s.slots[1].unary && s.last == n && !s.closed && s.active.None? && s.lost == {}
  }

  lemma Advances(s: State, n: nat) returns (s': State)
    requires Reachable(s) && OneStream(s, n) && 1 <= n < MaxId
    ensures Reachable(s') && OneStream(s', n + 1)
  {
    assert IsFirstFree(n, s.slots.Keys, n + 1, 1);
    var a := Started(s, true, n + 1, true);
    Extend(s, Start(true, n + 1, true), a);
    var b := Told(a.(slots := Drop(a.slots, n + 1)), a.slots[n + 1].key, Fail);
    Extend(a, FailedArrives(n + 1, true), b);
    s' := b;
  }

  lemma {:induction false} UsesUp(n: nat) returns (s: State)
    requires 1 <= n <= MaxId
    ensures Reachable(s) && OneStream(s, n)
  {
    if n == 1 {
      assert Run([Initial]) && [Initial][0] == Initial;
      assert Reachable(Initial);
      assert IsFirstFree(0, Initial.slots.Keys, 1, 1);
      s := Started(Initial, false, 1, true);
      Extend(Initial, Start(false, 1, true), s);
    } else {
      var t := UsesUp(n - 1);
      s := Advances(t, n - 1);
    }
  }

  /**
    A stream's last frame arrives once ids have wrapped; its sink sends a request, which gets
    the id just freed, and throws. The request is gone and will never be settled.
  */
  lemma ReusedIdLosesARequest() returns (s: State, key: nat)
    ensures Reachable(s) && key < |s.kinds| && s.kinds[key] && key in s.lost
  {
    var t := UsesUp(MaxId);
    var a := Arrived(t, 1, true);
    Extend(t, FrameArrives(1, true), a);
    assert a.slots == map[];
    assert IsFirstFree(MaxId, a.slots.Keys, 1, 1);
    var b := Started(a, true, 1, true);
    Extend(a, Start(true, 1, true), b);
    ReachableInv(t);
    assert b.slots[1] != b.active.value.slot;
    key := |a.kinds|;
    s := SinkThrew(b);
    ReachableInv(b);
    Extend(b, SinkThrows, s);
  }

  lemma UndecodableFailureLosesARequest() returns (s: State)
    ensures Reachable(s) && s.kinds == [true] && s.lost == {0}
  {
    assert Run([Initial]) && [Initial][0] == Initial;
    assert Reachable(Initial);
    assert IsFirstFree(0, Initial.slots.Keys, 1, 1);
    var a := Started(Initial, true, 1, true);
    Extend(Initial, Start(true, 1, true), a);
    s := a.(slots := Drop(a.slots, 1), lost := {0});
    Extend(a, FailedArrives(1, false), s);
  }

  // ---------------------------------------------------------------------------
  // Who is told what
  // ---------------------------------------------------------------------------

  /** What a step tells: the request or stream that sits at its id, or its own sink, and nobody else. */
  function Tells(s: State, step: Step): seq<Call>
    requires (step.FrameArrives? || step.FailedArrives? || step.Cancelling?) ==> step.id in s.slots
    requires step.SinkThrows? ==> s.active.Some?
    requires step.FailNext? ==> s.failing != []
  {
    match step
    case Start(_, _, wrote) => if wrote then [] else [Call(|s.kinds|, Rejected)]
    case FrameArrives(id, end) => [Call(s.slots[id].key, Sink(s.slots[id].unary || end))]
    case SinkReturns => []
    case SinkThrows => [Call(s.active.value.slot.key, Threw)]
    case FailedArrives(id, decodes) => if decodes then [Call(s.slots[id].key, Fail)] else []
    case Cancelling(id) => [Call(s.slots[id].key, Cancel)]
    case Shutdown(_) => []
    case FailNext => [Call(s.failing[0].key, Fail)]
  }

  /** The id a step frees, if it frees one. */
  function Frees(s: State, step: Step): Option<nat>
    requires step.FrameArrives? ==> step.id in s.slots
    requires step.SinkThrows? ==> s.active.Some?
  {
    match step
    case FrameArrives(id, end) => if s.slots[id].unary || end then Some(id) else None
    case SinkThrows => Some(s.active.value.id)
    case FailedArrives(id, _) => Some(id)
    case Cancelling(id) => Some(id)
    case _ => None
  }

  /** Every step tells and frees just that; only a start takes an id, and only a close empties them all. */
  lemma StepTells(s: State, step: Step, s': State)
    requires Takes(s, step, s')
    ensures (step.FrameArrives? || step.FailedArrives? || step.Cancelling?) ==> step.id in s.slots
    ensures (step.SinkThrows? ==> s.active.Some?) && (step.FailNext? ==> s.failing != [])
    ensures s'.calls == s.calls + Tells(s, step)
    ensures step.Shutdown? ==> s'.slots == map[]
    ensures !step.Shutdown? ==> forall id :: id in s.slots && Frees(s, step) != Some(id) && !(step.Start? && step.id == id) ==> id in s'.slots && s'.slots[id] == s.slots[id]
    ensures forall id :: id in s'.slots && !(step.Start? && step.wrote && step.id == id) ==> id in s.slots && s'.slots[id] == s.slots[id] && Frees(s, step) != Some(id)
    ensures step.Start? ==> s'.kinds == s.kinds + [step.unary] && (step.id in s'.slots <==> step.wrote)
    ensures step.Start? && step.wrote ==> s'.slots[step.id] == Slot(|s.kinds|, step.unary)
    ensures !step.Start? ==> s'.kinds == s.kinds
  {
    hide IsFirstFree, IsOrder;
  }

  /** The request at an id is the one that was started with it, under the number of requests started before. */
  ghost predicate StartedAt(run: seq<State>, steps: seq<Step>, n: nat, m: nat, id: nat, slot: Slot) {
    m < n <= |steps| && m < |run| && steps[m] == Start(slot.unary, id, true) && slot.key == |run[m].kinds|
  }

  lemma {:induction false} SlotIsItsStart(run: seq<State>, steps: seq<Step>, n: nat, id: nat) returns (m: nat)
    requires RunsBy(run, steps) && n < |run| && id in run[n].slots
    ensures StartedAt(run, steps, n, m, id, run[n].slots[id])
  {
    assert n > 0;
    assert Takes(run[n - 1], steps[n - 1], run[n - 1 + 1]);
    StepTells(run[n - 1], steps[n - 1], run[n]);
    hide Takes;
    if steps[n - 1].Start? && steps[n - 1].wrote && steps[n - 1].id == id {
      m := n - 1;
    } else {
      m := SlotIsItsStart(run, steps, n - 1, id);
    }
  }

  /**
    A frame is told to the request or stream that was started with its id, as the last one if the
    request is unary or the frame says so, and then, and only then, the id is free again.
  */
  lemma FrameReachesItsRequest(run: seq<State>, steps: seq<Step>, n: nat) returns (m: nat)
    requires RunsBy(run, steps) && n < |steps| && steps[n].FrameArrives?
    ensures m < n && steps[m].Start? && steps[m].wrote && steps[m].id == steps[n].id
    ensures run[n + 1].calls == run[n].calls + [Call(|run[m].kinds|, Sink(steps[m].unary || steps[n].end))]
    ensures steps[n].id in run[n + 1].slots <==> !steps[m].unary && !steps[n].end
  {
    assert Takes(run[n], steps[n], run[n + 1]);
    StepTells(run[n], steps[n], run[n + 1]);
    hide Takes;
    m := SlotIsItsStart(run, steps, n, steps[n].id);
  }

  /** A failure that decodes, and a cancel, are told to the request or stream that was started with the id, which is then free. */
  lemma EndReachesItsRequest(run: seq<State>, steps: seq<Step>, n: nat) returns (m: nat)
    requires RunsBy(run, steps) && n < |steps| && ((steps[n].FailedArrives? && steps[n].decodes) || steps[n].Cancelling?)
    ensures m < n && steps[m].Start? && steps[m].wrote && steps[m].id == steps[n].id
    ensures run[n + 1].calls == run[n].calls + [Call(|run[m].kinds|, if steps[n].Cancelling? then Cancel else Fail)]
    ensures steps[n].id !in run[n + 1].slots && (steps[n].Cancelling? ==> !steps[m].unary)
  {
    assert Takes(run[n], steps[n], run[n + 1]);
    StepTells(run[n], steps[n], run[n + 1]);
    assert steps[n].Cancelling? ==> !run[n].slots[steps[n].id].unary;
    hide Takes;
    m := SlotIsItsStart(run, steps, n, steps[n].id);
  }
}
