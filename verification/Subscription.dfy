/**
  A live read of the log with credits: batches wait as they arrived, a credit goes back when
  an event is taken, and a progress report waits behind the events that came before it.

  The stream is open, so a credit that is granted reaches the server.
*/
module Subscription {
  import opened Wrappers

  datatype SequencedEvent = SequencedEvent(sequence: int, body: string)

  /** A record of a batch: an event, something a client steps over, or bytes it cannot read. */
  datatype Record = Evt(event: SequencedEvent) | Other | Bad

  /** A reported position and how many records had arrived when it came. */
  datatype Report = Report(position: int, after: nat)

  function EventsOf(batch: seq<Record>): seq<SequencedEvent> {
    if batch == [] then []
    else (if batch[0].Evt? then [batch[0].event] else []) + EventsOf(batch[1..])
  }

  function EventsIn(batches: seq<seq<Record>>): seq<SequencedEvent> {
    if batches == [] then [] else EventsOf(batches[0]) + EventsIn(batches[1..])
  }

  function RecordsIn(batches: seq<seq<Record>>): nat {
    if batches == [] then 0 else |batches[0]| + RecordsIn(batches[1..])
  }

  /** The first record that is not stepped over. */
  function FirstOf(batch: seq<Record>): (first: Option<Record>)
    ensures first.Some? ==> !first.value.Other?
  {
    if batch == [] then None else if batch[0].Other? then FirstOf(batch[1..]) else Some(batch[0])
  }

  function FirstIn(batches: seq<seq<Record>>): Option<Record> {
    if batches == [] then None
    else if FirstOf(batches[0]).Some? then FirstOf(batches[0]) else FirstIn(batches[1..])
  }

  /** The newest report that no untaken record came before. */
  function Reached(reports: seq<Report>, taken: nat): Option<int> {
    if reports == [] then None
    else
      var later := Reached(reports[1..], taken);
      if later.Some? then later else if reports[0].after <= taken then Some(reports[0].position) else None
  }

  ghost predicate Ordered(reports: seq<Report>) {
    forall i, j :: 0 <= i < j < |reports| ==> reports[i].after <= reports[j].after
  }

  lemma {:induction false} EventsSnoc(batches: seq<seq<Record>>, batch: seq<Record>)
    ensures EventsIn(batches + [batch]) == EventsIn(batches) + EventsOf(batch)
    ensures RecordsIn(batches + [batch]) == RecordsIn(batches) + |batch|
  {
    if batches == [] {
      assert batches + [batch] == [batch] && [batch][1..] == [];
      assert EventsIn([batch]) == EventsOf(batch) + EventsIn([batch][1..]);
      assert EventsIn([]) == [];
    } else {
      assert (batches + [batch])[1..] == batches[1..] + [batch];
      EventsSnoc(batches[1..], batch);
    }
  }

  function WaitingIn(peeked: Option<SequencedEvent>, batches: seq<seq<Record>>): seq<SequencedEvent> {
    if peeked.Some? then [peeked.value] + EventsIn(batches) else EventsIn(batches)
  }

  lemma WaitingGrows(peeked: Option<SequencedEvent>, batches: seq<seq<Record>>, batch: seq<Record>)
    ensures WaitingIn(peeked, batches + [batch]) == WaitingIn(peeked, batches) + EventsOf(batch)
  {
    EventsSnoc(batches, batch);
    if peeked.Some? {
      assert [peeked.value] + EventsIn(batches) + EventsOf(batch) == [peeked.value] + (EventsIn(batches) + EventsOf(batch));
    }
  }

  lemma {:induction false} EventsAtMostRecords(batch: seq<Record>)
    ensures |EventsOf(batch)| <= |batch|
    ensures |EventsOf(batch)| == |batch| <==> forall i :: 0 <= i < |batch| ==> batch[i].Evt?
  {
    if batch != [] {
      EventsAtMostRecords(batch[1..]);
      assert forall i :: 1 <= i < |batch| ==> batch[i] == batch[1..][i - 1];
    }
  }

  /** `Reached` answers with the last report at or behind what was taken. */
  lemma {:induction false} ReachedIsNewest(reports: seq<Report>, taken: nat, k: nat)
    requires Ordered(reports) && k <= |reports|
    requires forall i :: 0 <= i < k ==> reports[i].after <= taken
    requires k < |reports| ==> reports[k].after > taken
    ensures Reached(reports, taken) == if k == 0 then None else Some(reports[k - 1].position)
  {
    if reports != [] {
      var rest := reports[1..];
      assert forall i :: 0 <= i < |rest| ==> rest[i] == reports[i + 1];
      ReachedIsNewest(rest, taken, if k == 0 then 0 else k - 1);
    }
  }

  /** What arrived is what was handed out and then what waits, or the rest was thrown away. */
  ghost predicate Accounted(arrived: seq<SequencedEvent>, out: seq<SequencedEvent>, waiting: seq<SequencedEvent>, discarded: bool) {
    if discarded then out <= arrived else arrived == out + waiting
  }

  lemma OutIsPrefix(arrived: seq<SequencedEvent>, out: seq<SequencedEvent>, waiting: seq<SequencedEvent>, discarded: bool)
    requires Accounted(arrived, out, waiting, discarded)
    ensures out <= arrived
  {
  }

  lemma AccountedGrows(arrived: seq<SequencedEvent>, out: seq<SequencedEvent>, waiting: seq<SequencedEvent>, more: seq<SequencedEvent>)
    requires Accounted(arrived, out, waiting, false)
    ensures Accounted(arrived + more, out, waiting + more, false)
  {
    assert out + waiting + more == out + (waiting + more);
  }

  lemma AccountedTake(arrived: seq<SequencedEvent>, out: seq<SequencedEvent>, item: SequencedEvent, waiting: seq<SequencedEvent>)
    requires Accounted(arrived, out, [item] + waiting, false)
    ensures Accounted(arrived, out + [item], waiting, false)
  {
    assert out + ([item] + waiting) == out + [item] + waiting;
  }

  /** What has been reported so far is what was settled and then what is held. */
  ghost predicate ReportsOk(reports: seq<Report>, held: seq<Report>, settled: Option<int>, received: nat, taken: nat) {
    && Ordered(reports) && (forall i :: 0 <= i < |reports| ==> reports[i].after <= received)
    && |held| <= |reports| && held == reports[|reports| - |held|..]
    && (forall i :: 0 <= i < |reports| - |held| ==> reports[i].after <= taken)
    && settled == if |held| == |reports| then None else Some(reports[|reports| - |held| - 1].position)
  }

  lemma ReportArrives(reports: seq<Report>, held: seq<Report>, settled: Option<int>, received: nat, taken: nat, position: int)
    requires ReportsOk(reports, held, settled, received, taken)
    ensures ReportsOk(reports + [Report(position, received)], held + [Report(position, received)], settled, received, taken)
  {
  }

  lemma ReportsOutlast(reports: seq<Report>, held: seq<Report>, settled: Option<int>, received: nat, taken: nat, received': nat, taken': nat)
    requires ReportsOk(reports, held, settled, received, taken) && received <= received' && taken <= taken'
    ensures ReportsOk(reports, held, settled, received', taken')
  {
  }

  lemma ReportSettles(reports: seq<Report>, held: seq<Report>, settled: Option<int>, received: nat, taken: nat)
    requires ReportsOk(reports, held, settled, received, taken) && held != [] && held[0].after <= taken
    ensures ReportsOk(reports, held[1..], Some(held[0].position), received, taken)
  {
    assert held[0] == reports[|reports| - |held|];
  }

  lemma ReportsDropped(reports: seq<Report>, held: seq<Report>, settled: Option<int>, received: nat, taken: nat)
    requires ReportsOk(reports, held, settled, received, taken)
    ensures |held| <= |reports| && ReportsOk(reports[..|reports| - |held|], [], settled, received, taken)
  {
    var n := |reports| - |held|;
    var done := reports[..n];
    assert |done| == n && forall i :: 0 <= i < n ==> done[i] == reports[i];
    assert done[n..] == [];
    assert Ordered(done);
  }

  /** When the first held report is still behind an untaken record, what is settled is what has been reached. */
  lemma SettledIsReached(reports: seq<Report>, held: seq<Report>, settled: Option<int>, received: nat, taken: nat)
    requires ReportsOk(reports, held, settled, received, taken) && (held == [] || held[0].after > taken)
    ensures settled == Reached(reports, taken)
  {
    var k := |reports| - |held|;
    assert k < |reports| ==> reports[k] == held[0];
    ReachedIsNewest(reports, taken, k);
  }

  class Consumer {
    const credits: nat
    var batches: seq<seq<Record>>
    var queued: nat
    var peeked: Option<SequencedEvent>
    var completed: bool
    var outstanding: int
    var held: seq<Report>
    var settled: Option<int>
    var received: nat
    var taken: nat

    /** Everything that arrived, everything handed out, every credit granted, and every report still in play. */
    ghost var arrived: seq<SequencedEvent>
    ghost var out: seq<SequencedEvent>
    ghost var granted: nat
    ghost var reports: seq<Report>
    /** Records stepped over, and whether waiting events were thrown away by a close or unreadable bytes. */
    ghost var skipped: nat
    ghost var discarded: bool

    /** Everything that has arrived and not been handed out. */
    ghost function Waiting(): seq<SequencedEvent>
      reads this
    {
      WaitingIn(peeked, batches)
    }

    ghost predicate EventsInv()
      reads this
    {
      && Accounted(arrived, out, Waiting(), discarded)
      && taken == |out| && |arrived| <= received
      && queued == RecordsIn(batches) + skipped
    }

    ghost predicate CreditsInv()
      reads this
    {
      && 1 <= credits && outstanding + taken == granted && outstanding <= credits
      && (!completed ==> outstanding > credits / 4)
    }

    ghost predicate ReportsInv()
      reads this
    {
      ReportsOk(reports, held, settled, received, taken)
    }

    ghost predicate Valid()
      reads this
    {
      EventsInv() && CreditsInv() && ReportsInv() && (discarded ==> completed && batches == [] && peeked.None?)
    }

    constructor (credits: nat)
      requires 1 <= credits
      ensures Valid() && arrived == [] && out == [] && granted == credits && reports == [] && !discarded && !completed
      ensures received == 0 && skipped == 0 && this.credits == credits && Waiting() == []
    {
      this.credits := credits;
      batches, queued, peeked, completed, outstanding := [], 0, None, false, credits;
      held, settled, received, taken := [], None, 0, 0;
      arrived, out, granted, reports, skipped, discarded := [], [], credits, [], 0, false;
    }

    method OnEvents(batch: seq<Record>, end: bool)
      requires Valid()
      modifies this
      ensures Valid() && out == old(out) && granted == old(granted) && reports == old(reports) && discarded == old(discarded)
      ensures old(completed) ==> arrived == old(arrived) && received == old(received) && completed
      ensures !old(completed) ==> arrived == old(arrived) + EventsOf(batch) && received == old(received) + |batch| && completed == end
    {
      if completed {
        return;
      }
      if |batch| > 0 {
        Add(batch);
      } else {
        assert arrived + EventsOf(batch) == arrived;
      }
      if end {
        completed := true;
      }
    }

    method Add(batch: seq<Record>)
      requires Valid() && !completed
      modifies this`batches, this`queued, this`received, this`arrived
      ensures Valid() && arrived == old(arrived) + EventsOf(batch) && received == old(received) + |batch|
    {
      hide ReportsOk, EventsOf, Accounted, WaitingIn, EventsIn, RecordsIn;
      EventsAtMostRecords(batch);
      WaitingGrows(peeked, batches, batch);
      EventsSnoc(batches, batch);
      ReportsOutlast(reports, held, settled, received, taken, received + |batch|, taken);
      AccountedGrows(arrived, out, Waiting(), EventsOf(batch));
      batches := batches + [batch];
      queued := queued + |batch|;
      received := received + |batch|;
      arrived := arrived + EventsOf(batch);
    }

    method OnProgress(position: int, end: bool)
      requires Valid()
      modifies this
      ensures Valid() && out == old(out) && arrived == old(arrived) && granted == old(granted) && received == old(received)
      ensures discarded == old(discarded)
      ensures old(completed) ==> reports == old(reports) && completed
      ensures !old(completed) ==> reports == old(reports) + [Report(position, received)] && completed == end
    {
      if completed {
        return;
      }
      hide ReportsOk, RecordsIn, EventsIn;
      ReportArrives(reports, held, settled, received, taken, position);
      held := held + [Report(position, received)];
      reports := reports + [Report(position, received)];
      if end {
        completed := true;
      }
    }

    /** Throws away what waits; the reports behind it go too. */
    method Discard()
      requires CreditsInv() && ReportsInv() && completed && taken == |out| && |arrived| <= received && out <= arrived
      modifies this
      ensures Valid() && discarded && completed && Waiting() == [] && out == old(out) && arrived == old(arrived)
      ensures granted == old(granted) && taken == old(taken) && received == old(received)
      ensures reports <= old(reports)
    {
      hide ReportsOk;
      ReportsDropped(reports, held, settled, received, taken);
      reports := reports[..|reports| - |held|];
      batches, queued, peeked, held := [], 0, None, [];
      skipped, discarded := 0, true;
    }

    /** The next event of one batch, stepping over what is not one. */
    static method Take(batch: seq<Record>) returns (item: Option<SequencedEvent>, rest: seq<Record>, stepped: nat, bad: bool)
      ensures bad ==> item.None?
      ensures bad <==> FirstOf(batch) == Some(Bad)
      ensures item.Some? <==> FirstOf(batch).Some? && FirstOf(batch).value.Evt?
      ensures !bad && item.Some? ==> EventsOf(batch) == [item.value] + EventsOf(rest) && |batch| == |rest| + stepped + 1
      ensures !bad && item.None? ==> EventsOf(batch) == [] && rest == [] && |batch| == stepped
    {
      item, rest, stepped, bad := None, batch, 0, false;
      while rest != []
        invariant EventsOf(rest) == EventsOf(batch) && FirstOf(rest) == FirstOf(batch) && |batch| == |rest| + stepped && item.None? && !bad
        decreases |rest|
      {
        var record := rest[0];
        rest := rest[1..];
        match record {
          case Evt(e) =>
            item := Some(e);
            return;
          case Other =>
            stepped := stepped + 1;
          case Bad =>
            bad := true;
            return;
        }
      }
    }

    /** The next event off the batches; unreadable bytes end the subscription. */
    method Pull() returns (item: Option<SequencedEvent>)
      requires Valid() && peeked.None?
      modifies this
      ensures out == old(out) && arrived == old(arrived) && granted == old(granted) && taken == old(taken) && received == old(received)
      ensures CreditsInv() && ReportsInv() && peeked.None? && queued == RecordsIn(batches) + skipped
      ensures discarded ==> completed && batches == []
      ensures old(completed) ==> completed
      ensures discarded ==> item.None?
      ensures item.None? ==> Valid()
      ensures !discarded ==> completed == old(completed) && reports == old(reports) && !old(discarded)
      ensures discarded <==> old(discarded) || FirstIn(old(batches)) == Some(Bad)
      ensures !discarded && item.Some? ==> EventsIn(old(batches)) == [item.value] + EventsIn(batches)
      ensures !discarded && item.None? ==> EventsIn(old(batches)) == [] == EventsIn(batches)
    {
      hide ReportsOk, EventsOf, Accounted;
      var bad := false;
      item := None;
      while batches != [] && item.None? && !bad
        invariant old(discarded) ==> batches == [] && !bad
        invariant item.Some? ==> !bad && EventsIn(old(batches)) == [item.value] + EventsIn(batches)
        invariant item.None? && !bad ==> EventsIn(batches) == EventsIn(old(batches)) && FirstIn(batches) == FirstIn(old(batches))
        invariant bad ==> FirstIn(old(batches)) == Some(Bad)
        invariant item.Some? ==> FirstIn(old(batches)) != Some(Bad)
        invariant !bad ==> queued == RecordsIn(batches) + skipped
        decreases |batches|, item.None?, !bad
        modifies this`batches, this`skipped, this`queued
      {
        var next, rest, stepped, failed := Take(batches[0]);
        if failed {
          bad := true;
        } else if next.Some? {
          ghost var before := batches;
          batches := [rest] + batches[1..];
          assert batches[1..] == before[1..];
          assert EventsIn(before) == [next.value] + EventsIn(batches);
          skipped := skipped + stepped;
          queued := queued - 1;
          item := next;
        } else {
          skipped := skipped + stepped;
          batches := batches[1..];
        }
      }
      if bad {
        completed := true;
        OutIsPrefix(arrived, out, old(Waiting()), old(discarded));
        Discard();
      }
    }

    /** Takes one event, and grants credit back once a quarter of the window or less is left. */
    method Next() returns (item: Option<SequencedEvent>, grant: nat)
      requires Valid()
      modifies this
      ensures Valid() && arrived == old(arrived) && received == old(received) && granted == old(granted) + grant
      ensures item.Some? ==> out == old(out) + [item.value] && [item.value] <= old(Waiting())
      ensures item.None? ==> out == old(out) && grant == 0
      ensures discarded <==> old(discarded) || (old(peeked).None? && FirstIn(old(batches)) == Some(Bad))
      ensures !discarded ==> (item.None? <==> old(Waiting()) == [])
      ensures !discarded ==> completed == old(completed) && old(Waiting()) == (if item.Some? then [item.value] else []) + Waiting()
      ensures grant == if item.Some? && old(outstanding) - 1 <= credits / 4 && !completed then credits - (old(outstanding) - 1) else 0
    {
      hide ReportsOk, RecordsIn, EventsIn, Accounted;
      grant := 0;
      item := peeked;
      if item.None? {
        item := Pull();
      } else {
        peeked := None;
      }
      if item.Some? {
        assert old(Waiting()) == [item.value] + Waiting();
        ReportsOutlast(reports, held, settled, received, taken, received, taken + 1);
        AccountedTake(arrived, out, item.value, Waiting());
        taken := taken + 1;
        out := out + [item.value];
        outstanding := outstanding - 1;
        if outstanding <= credits / 4 && !completed {
          grant := credits - outstanding;
          outstanding := outstanding + grant;
          granted := granted + grant;
        }
      }
    }

    /** Looks at the next event without taking it. */
    method Peek() returns (item: Option<SequencedEvent>)
      requires Valid()
      modifies this
      ensures Valid() && out == old(out) && arrived == old(arrived) && granted == old(granted) && received == old(received)
      ensures discarded <==> old(discarded) || (old(peeked).None? && FirstIn(old(batches)) == Some(Bad))
      ensures !discarded ==> completed == old(completed) && Waiting() == old(Waiting())
      ensures !discarded ==> (item.None? <==> Waiting() == []) && (item.Some? ==> Waiting()[0] == item.value)
    {
      hide ReportsOk, RecordsIn, EventsIn;
      if peeked.None? {
        peeked := Pull();
        assert !discarded ==> Waiting() == old(Waiting());
      }
      item := peeked;
    }

    /** The newest report whose preceding records have all been taken. */
    method Progress() returns (position: Option<int>)
      requires Valid()
      modifies this`held, this`settled
      ensures Valid() && position == Reached(reports, taken)
    {
      hide ReportsOk, EventsIn, RecordsIn, Accounted;
      while |held| > 0 && held[0].after <= taken
        invariant Valid()
        decreases |held|
      {
        ReportSettles(reports, held, settled, received, taken);
        settled := Some(held[0].position);
        held := held[1..];
      }
      SettledIsReached(reports, held, settled, received, taken);
      position := settled;
    }

    /** No record other than an event waits or has been stepped over. */
    ghost predicate OnlyEvents()
      reads this
    {
      skipped == 0 && RecordsIn(batches) == |EventsIn(batches)|
    }

    /**
      Never false while an event waits; true without one exactly while records that are no
      events are counted, which those stepped over stay for good.
    */
    method HasNextAvailable() returns (yes: bool)
      requires Valid()
      ensures yes <==> peeked.Some? || RecordsIn(batches) + skipped > 0
      ensures Waiting() != [] ==> yes
      ensures OnlyEvents() ==> (yes <==> Waiting() != [])
      ensures (yes <==> Waiting() != []) <==> (Waiting() == [] ==> RecordsIn(batches) + skipped == 0)
    {
      AtMostRecords(batches);
      yes := peeked.Some? || queued > 0;
    }

    method Close()
      requires Valid()
      modifies this
      ensures Valid() && completed && discarded && out == old(out) && Waiting() == []
    {
      completed := true;
      Discard();
    }

    /**
      With a server that honours credits and batches of nothing but events: at most `credits`
      events wait, and once they are all taken the server has more than a quarter of the
      window left to send.
    */
    lemma CreditsBoundTheQueue()
      requires Valid() && !discarded && |arrived| <= granted
      ensures |Waiting()| <= outstanding <= credits
      ensures !completed && Waiting() == [] ==> granted - |arrived| > credits / 4
    {
    }
  }

  /** A subscription is opened only with a window that is a positive u32. */
  method Subscribe(credits: int) returns (stream: Option<Consumer>)
    ensures stream.Some? <==> 1 <= credits <= 0xffff_ffff
    ensures stream.Some? ==> stream.value.Valid() && fresh(stream.value) && stream.value.granted == credits && stream.value.Waiting() == []
  {
    if credits < 1 || credits > 0xffff_ffff {
      return None;
    }
    var consumer := new Consumer(credits);
    stream := Some(consumer);
  }

  lemma {:induction false} AtMostRecords(batches: seq<seq<Record>>)
    ensures |EventsIn(batches)| <= RecordsIn(batches)
  {
    if batches != [] {
      EventsAtMostRecords(batches[0]);
      AtMostRecords(batches[1..]);
    }
  }
}
