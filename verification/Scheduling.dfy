/**
  Scheduled events: a table of pending rows, cancelled by callers and fired into the log by
  any number of workers, each change part of a transaction that may roll back.

  Environment: READ COMMITTED with row locks. A transaction sees the committed rows under
  its own writes; SELECT ... FOR UPDATE waits for, and with SKIP LOCKED passes over, a row
  another transaction has written or locked; an uncommitted row is invisible to others but
  keeps its key taken; now() is when the transaction began. The unique key on the log's
  event id is not relied on.
*/
module Scheduling {
  import opened Wrappers
  import opened Criteria
  import opened Names

  datatype Status = Pending | Appended | Cancelled

  datatype Schedule = Schedule(fireAt: int, status: Status, name: string, tags: seq<string>, body: string)

  datatype CancelResult = WasCancelled | AlreadyAppended | NotFound

  type Table = map<string, Schedule>

  // ---------------------------------------------------------------------------
  // Rows
  // ---------------------------------------------------------------------------

  /** The inserted row; the event's id is the schedule's id. */
  function RowFor(e: Event, at: int): Schedule {
    Schedule(at, Pending, e.name, EncodeTags(e.tags), e.body)
  }

  function Reconstruct(id: string, row: Schedule): Event {
    Event(id, row.name, seq(|row.tags|, i requires 0 <= i < |row.tags| => DecodeTag(row.tags[i])), row.body)
  }

  /** The event that fires is the event that was scheduled, exactly when its tag keys are plain. */
  lemma ScheduleRoundTrip(e: Event, at: int)
    ensures Reconstruct(e.id, RowFor(e, at)) == e <==> PlainEvent(e)
  {
    var r := Reconstruct(e.id, RowFor(e, at));
    forall i | 0 <= i < |e.tags|
      ensures r.tags[i] == e.tags[i] <==> PlainKey(e.tags[i])
    {
      TagRoundTrip(e.tags[i]);
    }
    assert r.tags == e.tags <==> PlainEvent(e);
  }

  /** An event as the application has it, with its name in two parts. */
  datatype Planned = Planned(id: string, name: Name<char>, tags: seq<Tag>, body: string)

  function Stored(p: Planned): Event {
    Event(p.id, Joined(p.name, '.'), p.tags, p.body)
  }

  function Restored(e: Event): Planned {
    Planned(e.id, Split(e.name, '.'), e.tags, e.body)
  }

  /**
    What the application planned is what fires, exactly when its tag keys are plain and its
    local name has no dot; storing what fires changes nothing in any case.
  */
  lemma PlannedExactly(p: Planned, at: int)
    ensures var fired := Reconstruct(p.id, RowFor(Stored(p), at));
            && (Restored(fired) == p <==> PlainEvent(Stored(p)) && '.' !in p.name.local)
            && Stored(Restored(fired)) == fired
  {
    var e := Stored(p);
    ScheduleRoundTrip(e, at);
    JoinedThenSplit(p.name, '.');
    assert e.name[|p.name.namespace|] == '.';
    SplitThenJoined(e.name, '.');
    hide Split, Joined, EncodeTags, DecodeTag, PlainEvent;
  }

  // ---------------------------------------------------------------------------
  // One transaction
  // ---------------------------------------------------------------------------

  /**
    A transaction's uncommitted side: the rows it wrote, the rows it holds locked, the events
    it appended, the batch a worker has left to fire, and what its cancels answered.
  */
  datatype Tx = Tx(worker: bool, began: int, rows: Table, locks: set<string>, appended: seq<Event>, batch: seq<string>, answers: seq<(string, CancelResult)>)

  function Visible(table: Table, tx: Tx, id: string): Option<Schedule> {
    if id in tx.rows then Some(tx.rows[id]) else if id in table then Some(table[id]) else None
  }

  function Cancelling(table: Table, tx: Tx, id: string): CancelResult {
    match Visible(table, tx, id)
    case None => NotFound
    case Some(row) => if row.status.Appended? then AlreadyAppended else if row.status.Cancelled? then NotFound else WasCancelled
  }

  function WithCancel(table: Table, tx: Tx, id: string): Tx {
    var answer := Cancelling(table, tx, id);
    var seen := Visible(table, tx, id);
    tx.(locks := if seen.Some? then tx.locks + {id} else tx.locks,
        rows := if answer == WasCancelled && seen.Some? then tx.rows[id := seen.value.(status := Cancelled)] else tx.rows,
        answers := tx.answers + [(id, answer)])
  }

  function WithSchedule(tx: Tx, e: Event, at: int): Tx {
    tx.(locks := tx.locks + {e.id}, rows := tx.rows[e.id := RowFor(e, at)])
  }

  /** One pass of a worker's loop: append the event, flip the row. */
  function WithFired(table: Table, tx: Tx): Tx
    requires tx.batch != []
  {
    var id := tx.batch[0];
    match Visible(table, tx, id)
    case None => tx.(batch := tx.batch[1..])
    case Some(row) =>
      tx.(appended := tx.appended + [Reconstruct(id, row)], rows := tx.rows[id := row.(status := Appended)], batch := tx.batch[1..])
  }

  function AllFired(table: Table, tx: Tx): Tx
    decreases |tx.batch|
  {
    if tx.batch == [] then tx else AllFired(table, WithFired(table, tx))
  }

  /** The unit of work of one caller or one tick. */
  class UnitOfWork {
    const worker: bool
    const began: int
    var rows: Table
    var locks: set<string>
    var appended: seq<Event>
    var batch: seq<string>
    var answers: seq<(string, CancelResult)>

    ghost function View(): Tx
      reads this
    {
      Tx(worker, began, rows, locks, appended, batch, answers)
    }

    constructor (worker: bool, now: int)
      ensures View() == Tx(worker, now, map[], {}, [], [], [])
    {
      this.worker, began := worker, now;
      rows, locks, appended, batch, answers := map[], {}, [], [], [];
    }

    method InsertSchedule(e: Event, at: int) returns (id: string)
      modifies this
      ensures id == e.id && View() == WithSchedule(old(View()), e, at)
    {
      locks := locks + {e.id};
      rows := rows[e.id := Schedule(at, Pending, e.name, EncodeTags(e.tags), e.body)];
      id := e.id;
    }

    method CancelOnTx(table: Table, id: string) returns (result: CancelResult)
      modifies this
      ensures result == Cancelling(table, old(View()), id) && View() == WithCancel(table, old(View()), id)
    {
      var row: Schedule;
      if id in rows {
        row := rows[id];
      } else if id in table {
        row := table[id];
      } else {
        answers := answers + [(id, NotFound)];
        return NotFound;
      }
      locks := locks + {id};
      if row.status.Appended? {
        answers := answers + [(id, AlreadyAppended)];
        return AlreadyAppended;
      }
      if row.status.Cancelled? {
        answers := answers + [(id, NotFound)];
        return NotFound;
      }
      rows := rows[id := row.(status := Cancelled)];
      answers := answers + [(id, WasCancelled)];
      result := WasCancelled;
    }

    /** The loop of a tick over the rows it has locked. */
    method FireBatch(table: Table)
      requires forall id :: id in batch ==> id in rows || id in table
      modifies this
      ensures View() == AllFired(table, old(View()))
    {
      while batch != []
        invariant AllFired(table, View()) == AllFired(table, old(View()))
        invariant forall id :: id in batch ==> id in rows || id in table
        decreases |batch|
      {
        var id := batch[0];
        var row := if id in rows then rows[id] else table[id];
        appended := appended + [Reconstruct(id, row)];
        rows := rows[id := row.(status := Appended)];
        batch := batch[1..];
      }
    }
  }

  // ---------------------------------------------------------------------------
  // Runs
  // ---------------------------------------------------------------------------

  /** `answers` are the committed cancels' results, in commit order. */
  datatype State = State(table: Table, log: seq<Event>, clock: int, txs: map<nat, Tx>, answers: seq<(string, CancelResult)>)

  datatype Step =
    | Wait(now: int)
    | Begin(t: nat, worker: bool)
    | Insert(t: nat, e: Event, at: int)
    | Cancel(t: nat, id: string)
    | Select(t: nat, limit: nat, batch: seq<string>)
    | Fire(t: nat)
    | Commit(t: nat)
    | Abort(t: nat)

  ghost predicate FreeFor(s: State, t: nat, id: string) {
    forall u :: u in s.txs && u != t ==> id !in s.txs[u].locks
  }

  ghost predicate Fires(s: State, t: nat, id: string)
    requires t in s.txs
  {
    id in s.table && s.table[id].status.Pending? && s.table[id].fireAt <= s.txs[t].began && FreeFor(s, t, id)
  }

  ghost predicate NotOlder(table: Table, batch: seq<string>, id: string) {
    forall b :: b in batch && b in table && id in table ==> table[b].fireAt <= table[id].fireAt
  }

  /** Due and pending, oldest first, at most `limit`, rows locked by others skipped. */
  ghost predicate IsTickBatch(s: State, t: nat, limit: nat, batch: seq<string>)
    requires t in s.txs
  {
    && |batch| <= limit && (forall i, j :: 0 <= i < j < |batch| ==> batch[i] != batch[j])
    && (forall id :: id in batch ==> Fires(s, t, id))
    && (forall i, j :: 0 <= i < j < |batch| && batch[i] in s.table && batch[j] in s.table ==> s.table[batch[i]].fireAt <= s.table[batch[j]].fireAt)
    && (forall id :: Fires(s, t, id) && id !in batch ==> |batch| == limit && NotOlder(s.table, batch, id))
  }

  function Put(s: State, t: nat, tx: Tx): State {
    s.(txs := s.txs[t := tx])
  }

  function Ended(s: State, t: nat): State {
    s.(txs := map u | u in s.txs && u != t :: s.txs[u])
  }

  ghost predicate Takes(s: State, step: Step, s': State) {
    match step
    case Wait(now) => now >= s.clock && s' == s.(clock := now)
    case Begin(t, worker) => t !in s.txs && s' == Put(s, t, Tx(worker, s.clock, map[], {}, [], [], []))
    case Insert(t, e, at) =>
      && t in s.txs && !s.txs[t].worker && e.id !in s.table && e.id !in s.txs[t].rows && FreeFor(s, t, e.id)
      && s' == Put(s, t, WithSchedule(s.txs[t], e, at))
    case Cancel(t, id) =>
      && t in s.txs && !s.txs[t].worker && (Visible(s.table, s.txs[t], id).Some? ==> FreeFor(s, t, id))
      && s' == Put(s, t, WithCancel(s.table, s.txs[t], id))
    case Select(t, limit, batch) =>
      && t in s.txs && s.txs[t].worker && s.txs[t].locks == {} && IsTickBatch(s, t, limit, batch)
      && s' == Put(s, t, s.txs[t].(batch := batch, locks := set id | id in batch))
    case Fire(t) =>
      t in s.txs && s.txs[t].batch != [] && s' == Put(s, t, WithFired(s.table, s.txs[t]))
    case Commit(t) =>
      && t in s.txs && s.txs[t].batch == []
      && s' == Ended(s, t).(table := s.table + s.txs[t].rows, log := s.log + s.txs[t].appended, answers := s.answers + s.txs[t].answers)
    case Abort(t) => t in s.txs && s' == Ended(s, t)
  }

  ghost predicate NextState(s: State, s': State) {
    exists step :: Takes(s, step, s')
  }

  /** The step that leads to the run's `i`-th state is one of the protocol's. */
  ghost predicate StepAt(run: seq<State>, i: nat) {
    0 < i < |run| ==> NextState(run[i - 1], run[i])
  }

  ghost predicate Run(run: seq<State>) {
    && |run| > 0 && run[0].table == map[] && run[0].log == [] && run[0].txs == map[] && run[0].answers == []
    && forall i: nat :: StepAt(run, i)
  }

  // ---------------------------------------------------------------------------
  // Invariant
  // ---------------------------------------------------------------------------

  predicate HasStatus(table: Table, id: string, status: Status) {
    id in table && table[id].status == status
  }

  ghost predicate Holds(log: seq<Event>, id: string) {
    exists i :: 0 <= i < |log| && log[i].id == id
  }

  /** Each entry is the event of an appended row that was due, and no two are of one schedule. */
  ghost predicate LogOf(log: seq<Event>, table: Table, clock: int) {
    && (forall i, j :: 0 <= i < j < |log| ==> log[i].id != log[j].id)
    && (forall i :: 0 <= i < |log| ==> Fits(log[i], table, clock))
    && (forall id :: HasStatus(table, id, Appended) ==> Holds(log, id))
  }

  ghost predicate Fits(e: Event, table: Table, clock: int) {
    HasStatus(table, e.id, Appended) && e == Reconstruct(e.id, table[e.id]) && table[e.id].fireAt <= clock
  }

  ghost predicate AnswersHold(answers: seq<(string, CancelResult)>, table: Table) {
    forall a :: a in answers ==>
      && (a.1 == WasCancelled ==> HasStatus(table, a.0, Cancelled))
      && (a.1 == AlreadyAppended ==> HasStatus(table, a.0, Appended))
  }

  /** What a transaction wrote it has locked, and it overwrites only pending rows, keeping all but the status. */
  ghost predicate RowsInv(table: Table, tx: Tx) {
    forall id :: id in tx.rows ==> id in tx.locks && (id in table ==> Overwrites(table[id], tx.rows[id]))
  }

  predicate Overwrites(old_: Schedule, new_: Schedule) {
    old_.status.Pending? && !new_.status.Pending? && new_ == old_.(status := new_.status)
  }

  /** What a worker has left to fire is locked, pending, due and untouched. */
  ghost predicate BatchInv(table: Table, tx: Tx) {
    && (forall i, j :: 0 <= i < j < |tx.batch| ==> tx.batch[i] != tx.batch[j])
    && (forall id :: id in tx.batch ==> ToFire(table, tx, id))
  }

  ghost predicate ToFire(table: Table, tx: Tx, id: string) {
    id in tx.locks && id !in tx.rows && HasStatus(table, id, Pending) && table[id].fireAt <= tx.began
  }

  ghost predicate TxInv(table: Table, clock: int, tx: Tx) {
    && tx.began <= clock && (!tx.worker ==> tx.batch == [])
    && RowsInv(table, tx) && BatchInv(table, tx)
    && LogOf(tx.appended, tx.rows, tx.began) && AnswersHold(tx.answers, table + tx.rows)
  }

  ghost predicate LocksInv(s: State) {
    forall t, u, id :: t in s.txs && u in s.txs && t != u && id in s.txs[t].locks ==> id !in s.txs[u].locks
  }

  ghost predicate Inv(s: State) {
    && LogOf(s.log, s.table, s.clock) && AnswersHold(s.answers, s.table) && LocksInv(s)
    && forall t :: t in s.txs ==> TxInv(s.table, s.clock, s.txs[t])
  }

  // ---------------------------------------------------------------------------
  // Steps keep the invariant
  // ---------------------------------------------------------------------------

  lemma InsertKeepsTx(table: Table, clock: int, tx: Tx, e: Event, at: int)
    requires TxInv(table, clock, tx) && !tx.worker && e.id !in table && e.id !in tx.rows
    ensures TxInv(table, clock, WithSchedule(tx, e, at))
  {
    hide Reconstruct, RowFor;
    var tx' := WithSchedule(tx, e, at);
    assert tx'.rows[e.id].status == Pending by { RowIsPending(e, at); }
    forall id: string
      ensures HasStatus(tx'.rows, id, Appended) <==> HasStatus(tx.rows, id, Appended)
      ensures HasStatus(tx.rows, id, Appended) ==> tx'.rows[id] == tx.rows[id]
    {
    }
    hide HasStatus;
    assert LogOf(tx'.appended, tx'.rows, tx'.began) by { SameLog(tx.appended, tx.rows, tx'.rows, tx.began); }
    assert AnswersHold(tx'.answers, table + tx'.rows) by { AnswersStay(tx.answers, table + tx.rows, table + tx'.rows); }
  }

  lemma RowIsPending(e: Event, at: int)
    ensures RowFor(e, at).status == Pending
  {
  }

  lemma SameLog(log: seq<Event>, table: Table, table': Table, clock: int)
    requires LogOf(log, table, clock)
    requires forall id: string :: HasStatus(table', id, Appended) <==> HasStatus(table, id, Appended)
    requires forall id: string :: HasStatus(table, id, Appended) ==> id in table && id in table' && table'[id] == table[id]
    ensures LogOf(log, table', clock)
  {
    hide HasStatus, Reconstruct;
    forall i | 0 <= i < |log|
      ensures Fits(log[i], table', clock)
    {
      assert Fits(log[i], table, clock);
    }
  }

  lemma AnswersStay(answers: seq<(string, CancelResult)>, table: Table, table': Table)
    requires AnswersHold(answers, table)
    requires forall id :: id in table && !table[id].status.Pending? ==> id in table' && table'[id].status == table[id].status
    ensures AnswersHold(answers, table')
  {
  }

  lemma CancelKeepsTx(table: Table, clock: int, tx: Tx, id: string)
    requires TxInv(table, clock, tx) && !tx.worker
    ensures TxInv(table, clock, WithCancel(table, tx, id))
  {
    hide Reconstruct;
    var tx' := WithCancel(table, tx, id);
    var answer := Cancelling(table, tx, id);
    assert tx'.answers == tx.answers + [(id, answer)];
    if answer == WasCancelled {
      assert tx'.rows[id].status == Cancelled;
      forall k: string
        ensures HasStatus(tx'.rows, k, Appended) <==> HasStatus(tx.rows, k, Appended)
        ensures HasStatus(tx.rows, k, Appended) ==> tx'.rows[k] == tx.rows[k]
      {
      }
      assert LogOf(tx'.appended, tx'.rows, tx'.began) by { SameLog(tx.appended, tx.rows, tx'.rows, tx.began); }
      assert AnswersHold(tx.answers, table + tx'.rows) by { AnswersStay(tx.answers, table + tx.rows, table + tx'.rows); }
    } else {
      assert tx'.rows == tx.rows;
    }
  }

  lemma FireKeepsTx(table: Table, clock: int, tx: Tx)
    requires TxInv(table, clock, tx) && tx.batch != []
    ensures TxInv(table, clock, WithFired(table, tx))
  {
    hide Reconstruct;
    var id, tx' := tx.batch[0], WithFired(table, tx);
    assert id in tx.batch && ToFire(table, tx, id);
    var row, e := table[id], Reconstruct(id, table[id]);
    assert tx'.appended == tx.appended + [e] && tx'.rows == tx.rows[id := row.(status := Appended)];
    FiredEvent(id, row);
    assert LogOf(tx'.appended, tx'.rows, tx'.began) by { LogGrows(tx.appended, tx.rows, tx.began, id, row.(status := Appended), e); }
    assert AnswersHold(tx'.answers, table + tx'.rows) by { AnswersStay(tx.answers, table + tx.rows, table + tx'.rows); }
    assert BatchInv(table, tx') by {
      assert forall k :: k in tx.batch[1..] ==> k in tx.batch && k != id;
      hide HasStatus;
    }
  }

  lemma FiredEvent(id: string, row: Schedule)
    ensures Reconstruct(id, row).id == id && Reconstruct(id, row) == Reconstruct(id, row.(status := Appended))
  {
  }

  lemma LogGrows(log: seq<Event>, table: Table, clock: int, id: string, row: Schedule, e: Event)
    requires LogOf(log, table, clock) && id !in table && row.status.Appended? && row.fireAt <= clock
    requires e.id == id && e == Reconstruct(id, row)
    ensures LogOf(log + [e], table[id := row], clock)
  {
    hide Reconstruct;
    var log', table' := log + [e], table[id := row];
    assert log'[|log|] == e;
    forall i | 0 <= i < |log'|
      ensures Fits(log'[i], table', clock)
    {
      if i < |log| {
        assert Fits(log[i], table, clock);
      }
    }
    forall k | HasStatus(table', k, Appended)
      ensures Holds(log', k)
    {
      if k != id {
        assert HasStatus(table, k, Appended) && Holds(log, k);
        var i :| 0 <= i < |log| && log[i].id == k;
        assert log'[i].id == k;
      }
    }
    forall i, j | 0 <= i < j < |log'|
      ensures log'[i].id != log'[j].id
    {
      assert Fits(log[i], table, clock);
    }
  }

  /** Two logs over disjoint appended rows make one. */
  lemma LogsJoin(log: seq<Event>, table: Table, clock: int, more: seq<Event>, rows: Table, began: int)
    requires LogOf(log, table, clock) && LogOf(more, rows, began) && began <= clock
    requires forall id :: id in rows && id in table ==> Overwrites(table[id], rows[id])
    ensures LogOf(log + more, table + rows, clock)
  {
    hide Reconstruct;
    var log', table' := log + more, table + rows;
    forall i | 0 <= i < |log'|
      ensures Fits(log'[i], table', clock)
    {
      assert if i < |log| then Fits(log[i], table, clock) else Fits(more[i - |log|], rows, began);
    }
    forall i, j | 0 <= i < j < |log'|
      ensures log'[i].id != log'[j].id
    {
      if i < |log| <= j {
        assert Fits(log[i], table, clock) && Fits(more[j - |log|], rows, began);
      }
    }
    forall k | HasStatus(table', k, Appended)
      ensures Holds(log', k)
    {
      if k in rows {
        assert HasStatus(rows, k, Appended) && Holds(more, k);
        var i :| 0 <= i < |more| && more[i].id == k;
        assert log'[|log| + i].id == k;
      } else {
        assert HasStatus(table, k, Appended) && Holds(log, k);
        var i :| 0 <= i < |log| && log[i].id == k;
        assert log'[i].id == k;
      }
    }
  }

  /** A commit changes only rows it has locked, so another transaction does not notice. */
  lemma OthersKeepTx(table: Table, clock: int, tx: Tx, other: Tx)
    requires TxInv(table, clock, tx) && TxInv(table, clock, other) && forall id :: id in tx.locks ==> id !in other.locks
    ensures TxInv(table + tx.rows, clock, other)
  {
    hide LogOf, Reconstruct;
    var table' := table + tx.rows;
    assert forall id :: id in other.locks ==> id !in tx.rows;
    forall id | id in other.batch
      ensures ToFire(table', other, id)
    {
      assert ToFire(table, other, id);
    }
    assert AnswersHold(other.answers, table' + other.rows) by {
      AnswersStay(other.answers, table + other.rows, table' + other.rows);
    }
  }

  lemma CommitKeepsInv(s: State, t: nat, s': State)
    requires Inv(s) && Takes(s, Commit(t), s')
    ensures Inv(s')
  {
    var tx := s.txs[t];
    assert TxInv(s.table, s.clock, tx);
    LogsJoin(s.log, s.table, s.clock, tx.appended, tx.rows, tx.began);
    AnswersStay(s.answers, s.table, s'.table);
    hide LogOf, Reconstruct;
    assert AnswersHold(s'.answers, s'.table);
    hide AnswersHold;
    assert LocksInv(s');
    forall u | u in s'.txs
      ensures TxInv(s'.table, s'.clock, s'.txs[u])
    {
      OthersKeepTx(s.table, s.clock, tx, s.txs[u]);
    }
  }

  /** A step inside a transaction that takes only free locks. */
  lemma InsideKeepsInv(s: State, t: nat, tx: Tx, s': State)
    requires Inv(s) && s' == Put(s, t, tx) && TxInv(s.table, s.clock, tx)
    requires forall id :: id in tx.locks ==> (t in s.txs && id in s.txs[t].locks) || FreeFor(s, t, id)
    ensures Inv(s')
  {
    hide TxInv, LogOf, AnswersHold;
  }

  lemma StartedTx(table: Table, clock: int, worker: bool)
    ensures TxInv(table, clock, Tx(worker, clock, map[], {}, [], [], []))
  {
  }

  lemma SelectKeepsTx(s: State, t: nat, limit: nat, batch: seq<string>)
    requires t in s.txs && TxInv(s.table, s.clock, s.txs[t]) && s.txs[t].worker && s.txs[t].locks == {} && IsTickBatch(s, t, limit, batch)
    ensures TxInv(s.table, s.clock, s.txs[t].(batch := batch, locks := set id | id in batch))
  {
    hide LogOf, AnswersHold;
    var tx := s.txs[t].(batch := batch, locks := set id | id in batch);
    assert forall id :: id in s.txs[t].rows ==> id in s.txs[t].locks;
    assert tx.rows == map[];
    forall id | id in batch
      ensures ToFire(s.table, tx, id)
    {
      assert Fires(s, t, id);
    }
  }

  lemma WaitKeepsInv(s: State, now: int, s': State)
    requires Inv(s) && Takes(s, Wait(now), s')
    ensures Inv(s')
  {
    hide Reconstruct, HasStatus, AnswersHold;
    assert LogOf(s'.log, s'.table, s'.clock) by {
      forall i | 0 <= i < |s.log|
        ensures Fits(s.log[i], s'.table, s'.clock)
      {
        assert Fits(s.log[i], s.table, s.clock);
      }
    }
    hide LogOf, RowsInv, BatchInv;
    assert LocksInv(s');
  }

  lemma StepKeepsInv(s: State, step: Step, s': State)
    requires Inv(s) && Takes(s, step, s')
    ensures Inv(s')
  {
    match step {
      case Wait(now) => WaitKeepsInv(s, now, s');
      case Begin(t, worker) =>
        StartedTx(s.table, s.clock, worker);
        hide Inv, TxInv;
        InsideKeepsInv(s, t, s'.txs[t], s');
      case Insert(t, e, at) =>
        assert TxInv(s.table, s.clock, s.txs[t]);
        hide Inv, TxInv;
        InsertKeepsTx(s.table, s.clock, s.txs[t], e, at);
        InsideKeepsInv(s, t, s'.txs[t], s');
      case Cancel(t, id) =>
        assert TxInv(s.table, s.clock, s.txs[t]);
        hide Inv, TxInv;
        CancelKeepsTx(s.table, s.clock, s.txs[t], id);
        InsideKeepsInv(s, t, s'.txs[t], s');
      case Select(t, limit, batch) =>
        assert TxInv(s.table, s.clock, s.txs[t]);
        hide Inv, TxInv;
        SelectKeepsTx(s, t, limit, batch);
        assert forall id :: id in batch ==> Fires(s, t, id) && FreeFor(s, t, id);
        InsideKeepsInv(s, t, s'.txs[t], s');
      case Fire(t) =>
        assert TxInv(s.table, s.clock, s.txs[t]);
        hide Inv, TxInv;
        FireKeepsTx(s.table, s.clock, s.txs[t]);
        InsideKeepsInv(s, t, s'.txs[t], s');
      case Commit(t) => CommitKeepsInv(s, t, s');
      case Abort(t) => hide TxInv, LogOf, AnswersHold;
    }
  }

  lemma {:induction false} RunKeepsInv(run: seq<State>, i: nat)
    requires Run(run) && i < |run|
    ensures Inv(run[i])
  {
    if i > 0 {
      RunKeepsInv(run, i - 1);
      assert StepAt(run, i);
      var step :| Takes(run[i - 1], step, run[i]);
      hide Inv, Takes;
      StepKeepsInv(run[i - 1], step, run[i]);
    }
  }

  // ---------------------------------------------------------------------------
  // Results over whole runs
  // ---------------------------------------------------------------------------

  /**
    Over every interleaving of callers, cancels and workers, with rollbacks and crashes: the
    log holds a schedule's event exactly when its committed row says appended, never twice,
    never before it was due, and as the row has it.
  */
  lemma FiresExactlyOnce(run: seq<State>, i: nat, id: string)
    requires Run(run) && i < |run|
    ensures HasStatus(run[i].table, id, Appended) <==> exists k :: 0 <= k < |run[i].log| && run[i].log[k].id == id
    ensures forall k, l :: 0 <= k < l < |run[i].log| ==> run[i].log[k].id != run[i].log[l].id
    ensures forall k :: 0 <= k < |run[i].log| && run[i].log[k].id == id ==>
              run[i].log[k] == Reconstruct(id, run[i].table[id]) && run[i].table[id].fireAt <= run[i].clock
  {
    hide Reconstruct;
    RunKeepsInv(run, i);
    var s := run[i];
    assert LogOf(s.log, s.table, s.clock);
    if HasStatus(s.table, id, Appended) {
      assert Holds(s.log, id);
    }
    forall k | 0 <= k < |s.log| && s.log[k].id == id
      ensures HasStatus(s.table, id, Appended) && s.log[k] == Reconstruct(id, s.table[id]) && s.table[id].fireAt <= s.clock
    {
      assert Fits(s.log[k], s.table, s.clock);
    }
  }

  /** A committed row keeps its event and due time for ever, and its status once that is final. */
  lemma StepKeepsRows(s: State, step: Step, s': State, id: string)
    requires Inv(s) && Takes(s, step, s') && id in s.table
    ensures id in s'.table && s'.table[id] == s.table[id].(status := s'.table[id].status)
    ensures !s.table[id].status.Pending? ==> s'.table[id] == s.table[id]
  {
    if step.Commit? {
      assert TxInv(s.table, s.clock, s.txs[step.t]);
    }
  }

  lemma {:induction false} FinalStatusStays(run: seq<State>, i: nat, j: nat, id: string)
    requires Run(run) && i <= j < |run| && id in run[i].table
    ensures id in run[j].table && run[j].table[id] == run[i].table[id].(status := run[j].table[id].status)
    ensures !run[i].table[id].status.Pending? ==> run[j].table[id] == run[i].table[id]
    decreases j
  {
    if i < j {
      FinalStatusStays(run, i, j - 1, id);
      RunKeepsInv(run, j - 1);
      assert StepAt(run, j);
      var step :| Takes(run[j - 1], step, run[j]);
      hide Inv, Takes;
      StepKeepsRows(run[j - 1], step, run[j], id);
    }
  }

  /** A committed `cancelled` means the event never fires; a committed `already-appended` means it is in the log for good. */
  lemma AnswersAreFinal(run: seq<State>, i: nat, j: nat, id: string, answer: CancelResult)
    requires Run(run) && i <= j < |run| && (id, answer) in run[i].answers
    ensures answer == WasCancelled ==> !Holds(run[j].log, id)
    ensures answer == AlreadyAppended ==> Holds(run[j].log, id)
  {
    RunKeepsInv(run, i);
    hide LogOf, Reconstruct, TxInv;
    if answer != NotFound {
      FinalStatusStays(run, i, j, id);
      FiresExactlyOnce(run, j, id);
    }
  }

  // ---------------------------------------------------------------------------
  // What is stored and fired, told by the calls
  // ---------------------------------------------------------------------------

  /** `run[i + 1]` is where step `i` leads. */
  ghost predicate StepsTo(run: seq<State>, steps: seq<Step>, i: nat) {
    i < |steps| && i + 1 < |run| ==> Takes(run[i], steps[i], run[i + 1])
  }

  ghost predicate RunsBy(run: seq<State>, steps: seq<Step>) {
    && |run| == |steps| + 1
    && run[0].table == map[] && run[0].log == [] && run[0].txs == map[] && run[0].answers == []
    && forall i: nat :: StepsTo(run, steps, i)
  }

  lemma StepsMakeARun(run: seq<State>, steps: seq<Step>)
    requires RunsBy(run, steps)
    ensures Run(run)
  {
    forall i: nat
      ensures StepAt(run, i)
    {
      assert i > 0 ==> StepsTo(run, steps, i - 1);
    }
  }

  /** The call at step `i` asked for this event at this time, and the row says so. */
  ghost predicate AskedFor(steps: seq<Step>, n: nat, i: nat, id: string, row: Schedule) {
    && i < n <= |steps| && steps[i].Insert? && steps[i].e.id == id
    && row.fireAt == steps[i].at && row.name == steps[i].e.name && row.tags == EncodeTags(steps[i].e.tags) && row.body == steps[i].e.body
  }

  ghost predicate Asked(steps: seq<Step>, n: nat, id: string, row: Schedule) {
    exists i: nat :: AskedFor(steps, n, i, id, row)
  }

  ghost predicate AllAsked(steps: seq<Step>, n: nat, rows: Table) {
    forall id :: id in rows ==> Asked(steps, n, id, rows[id])
  }

  lemma StillAsked(steps: seq<Step>, n: nat, id: string, row: Schedule, row': Schedule)
    requires Asked(steps, n, id, row) && n < |steps| && row' == row.(status := row'.status)
    ensures Asked(steps, n + 1, id, row')
  {
    var i: nat :| AskedFor(steps, n, i, id, row);
    assert AskedFor(steps, n + 1, i, id, row');
  }

  /** Which rows a step leaves in a transaction: those it had, one inserted, or one with a new status. */
  lemma RowOfStep(s: State, step: Step, s': State, t: nat, id: string)
    requires Takes(s, step, s') && t in s'.txs && id in s'.txs[t].rows
    ensures var row := s'.txs[t].rows[id];
            || (step.Insert? && step.e.id == id && row.fireAt == step.at && row.name == step.e.name && row.tags == EncodeTags(step.e.tags) && row.body == step.e.body)
            || (t in s.txs && id in s.txs[t].rows && row == s.txs[t].rows[id].(status := row.status))
            || (id in s.table && row == s.table[id].(status := row.status))
  {
    hide Reconstruct, IsTickBatch, EncodeTags;
  }

  lemma OnlyCommitsShow(s: State, step: Step, s': State)
    requires Takes(s, step, s') && !step.Commit?
    ensures s'.table == s.table && s'.log == s.log && s'.answers == s.answers
  {
    hide Reconstruct, IsTickBatch;
  }

  /** A commit shows what its transaction wrote, appended and answered, and a rollback shows nothing. */
  lemma CommitShows(s: State, t: nat, s': State)
    requires Takes(s, Commit(t), s')
    ensures t in s.txs && t !in s'.txs && s'.log == s.log + s.txs[t].appended && s'.answers == s.answers + s.txs[t].answers
    ensures forall id :: id in s'.table <==> id in s.table || id in s.txs[t].rows
    ensures forall id :: id in s'.table ==> s'.table[id] == if id in s.txs[t].rows then s.txs[t].rows[id] else s.table[id]
  {
  }

  ghost predicate RowsAsked(steps: seq<Step>, n: nat, s: State) {
    AllAsked(steps, n, s.table) && forall t :: t in s.txs ==> AllAsked(steps, n, s.txs[t].rows)
  }

  lemma StepKeepsAsked(run: seq<State>, steps: seq<Step>, n: nat)
    requires RunsBy(run, steps) && n < |steps| && RowsAsked(steps, n, run[n])
    ensures RowsAsked(steps, n + 1, run[n + 1])
  {
    assert StepsTo(run, steps, n);
    var s, step, s' := run[n], steps[n], run[n + 1];
    hide Takes, RunsBy, Asked;
    forall id | id in s'.table
      ensures Asked(steps, n + 1, id, s'.table[id])
    {
      if step.Commit? {
        CommitShows(s, step.t, s');
      } else {
        OnlyCommitsShow(s, step, s');
      }
      var row := s'.table[id];
      StillAsked(steps, n, id, row, row);
    }
    forall t, id | t in s'.txs && id in s'.txs[t].rows
      ensures Asked(steps, n + 1, id, s'.txs[t].rows[id])
    {
      RowOfStep(s, step, s', t, id);
      var row := s'.txs[t].rows[id];
      if t in s.txs && id in s.txs[t].rows && row == s.txs[t].rows[id].(status := row.status) {
        StillAsked(steps, n, id, s.txs[t].rows[id], row);
      } else if id in s.table && row == s.table[id].(status := row.status) {
        StillAsked(steps, n, id, s.table[id], row);
      } else {
        NowAsked(steps, n, id, row);
      }
    }
  }

  lemma NowAsked(steps: seq<Step>, n: nat, id: string, row: Schedule)
    requires n < |steps| && AskedFor(steps, n + 1, n, id, row)
    ensures Asked(steps, n + 1, id, row)
  {
  }

  lemma {:induction false} RunKeepsAsked(run: seq<State>, steps: seq<Step>, n: nat)
    requires RunsBy(run, steps) && n < |run|
    ensures RowsAsked(steps, n, run[n])
  {
    if n > 0 {
      RunKeepsAsked(run, steps, n - 1);
      StepKeepsAsked(run, steps, n - 1);
    }
  }

  /** A committed row is of an event some call scheduled, due when that call asked for it. */
  lemma RowsAreWhatWasScheduled(run: seq<State>, steps: seq<Step>, n: nat, id: string) returns (i: nat)
    requires RunsBy(run, steps) && n < |run| && id in run[n].table
    ensures i < n && steps[i].Insert? && steps[i].e.id == id && run[n].table[id].fireAt == steps[i].at
    ensures Reconstruct(id, run[n].table[id]) == steps[i].e <==> PlainEvent(steps[i].e)
  {
    RunKeepsAsked(run, steps, n);
    hide RunsBy, EncodeTags, DecodeTag, PlainEvent;
    var row := run[n].table[id];
    assert Asked(steps, n, id, row);
    i :| AskedFor(steps, n, i, id, row);
    ScheduleRoundTrip(steps[i].e, steps[i].at);
    SameEvent(id, row, RowFor(steps[i].e, steps[i].at));
  }

  lemma SameEvent(id: string, a: Schedule, b: Schedule)
    requires a.name == b.name && a.tags == b.tags && a.body == b.body
    ensures Reconstruct(id, a) == Reconstruct(id, b)
  {
  }

  /**
    Whatever is in the log was scheduled by some call, has fired no earlier than that call asked
    for, and is the very event it scheduled if and only if its tag keys are plain.
  */
  lemma LogIsWhatWasScheduled(run: seq<State>, steps: seq<Step>, n: nat, k: nat) returns (i: nat)
    requires RunsBy(run, steps) && n < |run| && k < |run[n].log|
    ensures i < n && steps[i].Insert? && steps[i].e.id == run[n].log[k].id && steps[i].at <= run[n].clock
    ensures run[n].log[k] == steps[i].e <==> PlainEvent(steps[i].e)
  {
    var id := run[n].log[k].id;
    StepsMakeARun(run, steps);
    FiresExactlyOnce(run, n, id);
    hide RunsBy, Run, Reconstruct, PlainEvent;
    i := RowsAreWhatWasScheduled(run, steps, n, id);
  }

  // --- cancelling

  /** What a cancel answers, by the row the transaction would see: its own, or else the committed one. */
  lemma CancelAnswers(s: State, t: nat, id: string, s': State) returns (answer: CancelResult)
    requires Takes(s, Cancel(t, id), s')
    ensures t in s.txs && t in s'.txs && s'.txs[t].answers == s.txs[t].answers + [(id, answer)]
    ensures var rows := if id in s.txs[t].rows then s.txs[t].rows else s.table;
            && (answer == WasCancelled <==> HasStatus(rows, id, Pending))
            && (answer == AlreadyAppended <==> HasStatus(rows, id, Appended))
            && (answer == NotFound <==> id !in rows || rows[id].status.Cancelled?)
    ensures answer == WasCancelled ==> HasStatus(s'.txs[t].rows, id, Cancelled)
    ensures answer != WasCancelled ==> s'.txs[t].rows == s.txs[t].rows
    ensures forall k :: k != id ==> (k in s'.txs[t].rows <==> k in s.txs[t].rows) && (k in s.txs[t].rows ==> s'.txs[t].rows[k] == s.txs[t].rows[k])
  {
    answer := Cancelling(s.table, s.txs[t], id);
  }

  /** Whatever is cancelled was cancelled by somebody who was told so. */
  ghost predicate CancelsTold(rows: Table, answers: seq<(string, CancelResult)>) {
    forall id :: HasStatus(rows, id, Cancelled) ==> (id, WasCancelled) in answers
  }

  ghost predicate ToldInv(s: State) {
    CancelsTold(s.table, s.answers) && forall t :: t in s.txs ==> CancelsTold(s.txs[t].rows, s.txs[t].answers)
  }

  lemma StepKeepsTold(s: State, step: Step, s': State)
    requires Inv(s) && ToldInv(s) && Takes(s, step, s')
    ensures ToldInv(s')
  {
    if step.Commit? {
      CommitShows(s, step.t, s');
      assert forall u :: u in s'.txs ==> u in s.txs && s'.txs[u] == s.txs[u];
      hide Takes, Inv;
      forall id | HasStatus(s'.table, id, Cancelled)
        ensures (id, WasCancelled) in s'.answers
      {
        assert HasStatus(s.table, id, Cancelled) || HasStatus(s.txs[step.t].rows, id, Cancelled);
      }
    } else {
      OnlyCommitsShow(s, step, s');
      forall t | t in s'.txs
        ensures CancelsTold(s'.txs[t].rows, s'.txs[t].answers)
      {
        if step.Cancel? && t == step.t {
          var answer := CancelAnswers(s, t, step.id, s');
          hide Takes, Inv;
          assert (step.id, answer) in s'.txs[t].answers;
        } else {
          StatusesStay(s, step, s', t);
        }
      }
    }
  }

  lemma StatusesStay(s: State, step: Step, s': State, t: nat)
    requires Inv(s) && ToldInv(s) && Takes(s, step, s') && t in s'.txs && !step.Commit? && (step.Cancel? ==> t != step.t)
    ensures CancelsTold(s'.txs[t].rows, s'.txs[t].answers)
  {
    hide Reconstruct, IsTickBatch, Inv, EncodeTags;
    if t in s.txs {
      assert s'.txs[t].answers == s.txs[t].answers;
      assert forall id :: HasStatus(s'.txs[t].rows, id, Cancelled) ==> HasStatus(s.txs[t].rows, id, Cancelled);
    }
  }

  lemma {:induction false} RunKeepsTold(run: seq<State>, i: nat)
    requires Run(run) && i < |run|
    ensures ToldInv(run[i])
  {
    if i > 0 {
      RunKeepsTold(run, i - 1);
      RunKeepsInv(run, i - 1);
      assert StepAt(run, i);
      var step :| Takes(run[i - 1], step, run[i]);
      hide Inv, Takes, ToldInv;
      StepKeepsTold(run[i - 1], step, run[i]);
    }
  }

  /** A committed row is cancelled if and only if some committed cancel was answered so. */
  lemma CancelledExactly(run: seq<State>, i: nat, id: string)
    requires Run(run) && i < |run|
    ensures HasStatus(run[i].table, id, Cancelled) <==> (id, WasCancelled) in run[i].answers
  {
    RunKeepsTold(run, i);
    RunKeepsInv(run, i);
    hide LogOf, TxInv;
  }

  // --- firing

  ghost predicate Known(table: Table, batch: seq<string>) {
    forall i :: 0 <= i < |batch| ==> batch[i] in table
  }

  /** The events of these rows, in this order. */
  function EventsOf(table: Table, batch: seq<string>): (es: seq<Event>)
    requires Known(table, batch)
    ensures |es| == |batch| && forall i :: 0 <= i < |batch| ==> es[i] == Reconstruct(batch[i], table[batch[i]])
  {
    seq(|batch|, i requires 0 <= i < |batch| && batch[i] in table => Reconstruct(batch[i], table[batch[i]]))
  }

  lemma FirstFires(table: Table, tx: Tx)
    requires BatchInv(table, tx) && tx.batch != []
    ensures var id, next := tx.batch[0], WithFired(table, tx);
            && id in table && id !in tx.batch[1..] && id !in tx.rows && next.batch == tx.batch[1..] && BatchInv(table, next)
            && next.appended == tx.appended + [Reconstruct(id, table[id])]
            && next.rows == tx.rows[id := table[id].(status := Appended)]
  {
    hide Reconstruct;
    var id, rest, next := tx.batch[0], tx.batch[1..], WithFired(table, tx);
    assert id in tx.batch && ToFire(table, tx, id);
    assert BatchInv(table, next) by {
      assert forall k :: k in rest ==> k in tx.batch && k != id;
      hide HasStatus;
    }
  }

  lemma BatchIsKnown(table: Table, tx: Tx)
    requires BatchInv(table, tx)
    ensures Known(table, tx.batch)
  {
    forall i | 0 <= i < |tx.batch|
      ensures tx.batch[i] in table
    {
      assert ToFire(table, tx, tx.batch[i]);
    }
  }

  lemma {:induction false} BatchAppends(table: Table, tx: Tx)
    requires BatchInv(table, tx)
    ensures Known(table, tx.batch) && AllFired(table, tx).batch == []
    ensures AllFired(table, tx).appended == tx.appended + EventsOf(table, tx.batch)
    decreases |tx.batch|
  {
    BatchIsKnown(table, tx);
    if tx.batch != [] {
      FirstFires(table, tx);
      hide Reconstruct, WithFired, BatchInv;
      var next := WithFired(table, tx);
      BatchAppends(table, next);
      assert EventsOf(table, tx.batch) == [Reconstruct(tx.batch[0], table[tx.batch[0]])] + EventsOf(table, tx.batch[1..]);
    }
  }

  lemma {:induction false} BatchMarks(table: Table, tx: Tx, id: string)
    requires BatchInv(table, tx)
    ensures id in tx.batch ==> id in table && id in AllFired(table, tx).rows && AllFired(table, tx).rows[id] == table[id].(status := Appended)
    ensures id !in tx.batch ==> (id in AllFired(table, tx).rows <==> id in tx.rows)
    ensures id !in tx.batch && id in tx.rows ==> AllFired(table, tx).rows[id] == tx.rows[id]
    decreases |tx.batch|
  {
    if tx.batch != [] {
      FirstFires(table, tx);
      hide Reconstruct, WithFired, BatchInv;
      assert tx.batch == [tx.batch[0]] + tx.batch[1..];
      BatchMarks(table, WithFired(table, tx), id);
    }
  }

  /** A worker's loop appends the event of every row of its batch, in the batch's order, and marks those rows and no others. */
  lemma BatchFires(table: Table, tx: Tx)
    requires BatchInv(table, tx)
    ensures Known(table, tx.batch)
    ensures var all := AllFired(table, tx);
            && all.batch == [] && all.appended == tx.appended + EventsOf(table, tx.batch)
            && (forall id :: id in tx.batch ==> HasStatus(all.rows, id, Appended))
            && (forall id :: id !in tx.batch ==> (id in all.rows <==> id in tx.rows) && (id in tx.rows ==> all.rows[id] == tx.rows[id]))
  {
    hide AllFired, BatchInv;
    BatchAppends(table, tx);
    forall id: string
      ensures id in tx.batch ==> HasStatus(AllFired(table, tx).rows, id, Appended)
      ensures id !in tx.batch ==> (id in AllFired(table, tx).rows <==> id in tx.rows)
      ensures id !in tx.batch && id in tx.rows ==> AllFired(table, tx).rows[id] == tx.rows[id]
    {
      BatchMarks(table, tx, id);
    }
  }

  /** A tick with room to spare fires everything that is pending, due and not locked by another. */
  lemma TickFiresAllThatIsDue(s: State, t: nat, limit: nat, batch: seq<string>, s': State, id: string)
    requires Inv(s) && Takes(s, Select(t, limit, batch), s') && |batch| < limit
    requires HasStatus(s.table, id, Pending) && s.table[id].fireAt <= s.txs[t].began && FreeFor(s, t, id)
    ensures id in batch && HasStatus(AllFired(s'.table, s'.txs[t]).rows, id, Appended)
  {
    assert Fires(s, t, id);
    StepKeepsInv(s, Select(t, limit, batch), s');
    assert TxInv(s'.table, s'.clock, s'.txs[t]);
    BatchFires(s'.table, s'.txs[t]);
  }

  /** A tick without room fires the oldest: nothing it passes over was due before anything it fires. */
  lemma TickFiresTheOldest(s: State, t: nat, limit: nat, batch: seq<string>, s': State, id: string, fired: string)
    requires Takes(s, Select(t, limit, batch), s')
    requires HasStatus(s.table, id, Pending) && s.table[id].fireAt <= s.txs[t].began && FreeFor(s, t, id)
    requires id !in batch && fired in batch
    ensures |batch| == limit && fired in s.table && s.table[fired].fireAt <= s.table[id].fireAt
  {
    assert Fires(s, t, id) && Fires(s, t, fired);
  }
}
