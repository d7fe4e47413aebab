/**
  The conditional append over many interleaved transactions.

  Environment, as the step relation states it: statements run at READ COMMITTED, so a check
  sees what has committed; a position comes from a sequence when a row is inserted and the
  row becomes visible when its transaction commits; advisory locks belong to a transaction
  and are given up only after its rows are visible, or when it aborts.
*/
module AppendProtocol {
  import opened Wrappers
  import opened Criteria

  /** How tags become lock keys, and the intent keys every append takes beside them: any hash, collisions included. */
  datatype Hash = Hash(leaf: string -> int, typeIntent: int, globalIntent: int)

  /** An advisory lock and its mode. */
  datatype Lock = Lock(key: int, shared: bool)

  /** Rows by position, so that position order is key order. */
  type Rows = map<int, Event>

  /** What one read returned: its rows and the marker an append checks above. */
  datatype ReadResult = ReadResult(query: seq<Item>, start: int, marker: int, rows: Rows)

  /** `query` decides the locks; `checks` are the reads, each with its own marker. */
  datatype Condition = Condition(query: seq<Item>, checks: seq<ReadResult>)

  datatype Phase = Acquiring | Inserting | Committed

  datatype Tx = Tx(events: seq<Event>, condition: Option<Condition>, held: set<Lock>, phase: Phase, done: nat, inserted: Rows)

  datatype Db = Db(log: Rows, next: int, txs: map<nat, Tx>, sourced: set<ReadResult>)

  // ---------------------------------------------------------------------------
  // Reading
  // ---------------------------------------------------------------------------

  /** The committed matches from `start` on. */
  function Select(log: Rows, query: seq<Item>, start: int): Rows {
    map p | p in log && p >= start && MatchesQuery(log[p], query) :: log[p]
  }

  /** The greatest selected position below `hi`, or the position just below `lo`. */
  function LastPosition(rows: Rows, lo: int, hi: int): (m: int)
    ensures lo - 1 <= m && (lo <= m ==> m in rows)
    ensures forall p :: p in rows && lo <= p < hi ==> p <= m
    decreases hi - lo
  {
    if lo >= hi then lo - 1
    else if hi - 1 in rows then hi - 1
    else LastPosition(rows, lo, hi - 1)
  }

  /** The plain read: the matches from `start`, and the last of them or the position just below `start`. */
  function SourcePlain(log: Rows, next: int, query: seq<Item>, start: int): ReadResult {
    var rows := Select(log, query, start);
    ReadResult(query, start, LastPosition(rows, start, next), rows)
  }

  // ---------------------------------------------------------------------------
  // Locks
  // ---------------------------------------------------------------------------

  predicate Opposed(x: Lock, y: Lock) {
    x.key == y.key && !(x.shared && y.shared)
  }

  /** Two transactions cannot hold these at the same time. */
  ghost predicate Clash(a: set<Lock>, b: set<Lock>) {
    exists x, y :: x in a && y in b && Opposed(x, y)
  }

  /** Exclusive leaf locks, the type intent when there are any, and the global intent. */
  function KeysOf(hash: Hash, tags: seq<Tag>): set<Lock> {
    (set t | t in tags :: Lock(hash.leaf(EncodeTag(t)), false))
    + (if tags == [] then {} else {Lock(hash.typeIntent, true)})
    + {Lock(hash.globalIntent, true)}
  }

  function WrittenTags(events: seq<Event>): seq<Tag> {
    if events == [] then [] else events[0].tags + WrittenTags(events[1..])
  }

  /** The tags the condition reads and the tags the events write. */
  function LockTags(events: seq<Event>, condition: Option<Condition>): seq<Tag> {
    (if condition.Some? then CriteriaTags(CompileQuery(condition.value.query)) else []) + WrittenTags(events)
  }

  function LockKeys(hash: Hash, tx: Tx): set<Lock> {
    KeysOf(hash, LockTags(tx.events, tx.condition))
  }

  lemma {:induction false} WrittenTagsHold(events: seq<Event>, e: Event)
    requires e in events
    ensures forall t :: t in e.tags ==> t in WrittenTags(events)
  {
    if e != events[0] {
      WrittenTagsHold(events[1..], e);
    }
  }

  lemma WrittenKeys(hash: Hash, tx: Tx, e: Event)
    requires e in tx.events
    ensures KeysOf(hash, e.tags) <= LockKeys(hash, tx)
  {
    WrittenTagsHold(tx.events, e);
    KeysGrow(hash, e.tags, LockTags(tx.events, tx.condition));
  }

  lemma KeysGrow(hash: Hash, a: seq<Tag>, b: seq<Tag>)
    requires forall t :: t in a ==> t in b
    ensures KeysOf(hash, a) <= KeysOf(hash, b)
  {
    assert a != [] ==> a[0] in a && a[0] in b;
  }

  lemma ClashGrows(a: set<Lock>, b: set<Lock>, a': set<Lock>, b': set<Lock>)
    requires Clash(a, b) && a <= a' && b <= b'
    ensures Clash(a', b') && Clash(b', a')
  {
    var x, y :| x in a && y in b && Opposed(x, y);
    assert Opposed(y, x);
  }

  // ---------------------------------------------------------------------------
  // The condition under which the guarantee holds
  // ---------------------------------------------------------------------------

  /**
    Writers of any two items of the query exclude each other; taking an item with itself,
    every item has a tag. One tag common to all items is the usual way to meet this; a leaf
    key that is an intent key too serves as well.
  */
  ghost predicate Safe(hash: Hash, query: seq<Item>) {
    forall a, b :: a in query && b in query ==> Clash(KeysOf(hash, a.tags), KeysOf(hash, b.tags))
  }

  /** The transaction's locks meet the keys of every item it read. */
  ghost predicate Guarded(hash: Hash, tx: Tx) {
    tx.condition.Some? ==>
      forall r, item :: r in tx.condition.value.checks && item in r.query ==>
        Clash(KeysOf(hash, item.tags), LockKeys(hash, tx))
  }

  /** `condition.query` covers every read, which is what its builder promises. */
  ghost predicate Covers(condition: Condition) {
    condition.query != [] && forall r, item :: r in condition.checks && item in r.query ==> item in condition.query
  }

  ghost predicate SafeReads(hash: Hash, condition: Condition) {
    forall r :: r in condition.checks ==> Safe(hash, r.query)
  }

  lemma CoveringGuards(hash: Hash, tx: Tx)
    requires tx.condition.Some? && Covers(tx.condition.value) && SafeReads(hash, tx.condition.value)
    ensures Guarded(hash, tx)
  {
    hide CompileQuery;
    var c := tx.condition.value;
    forall r, item | r in c.checks && item in r.query
      ensures Clash(KeysOf(hash, item.tags), LockKeys(hash, tx))
    {
      assert item in c.query && Clash(KeysOf(hash, item.tags), KeysOf(hash, item.tags));
      var n :| 0 <= n < |c.query| && c.query[n] == item;
      forall t | t in item.tags
        ensures t in LockTags(tx.events, tx.condition)
      {
        CompiledQuery(c.query, Event("", "", [], ""), t);
        assert t in c.query[n].tags;
      }
      KeysGrow(hash, item.tags, LockTags(tx.events, tx.condition));
      ClashGrows(KeysOf(hash, item.tags), KeysOf(hash, item.tags), KeysOf(hash, item.tags), LockKeys(hash, tx));
    }
  }

  lemma MatchCarriesKeys(hash: Hash, e: Event, query: seq<Item>) returns (item: Item)
    requires MatchesQuery(e, query)
    ensures item in query && KeysOf(hash, item.tags) <= KeysOf(hash, e.tags)
  {
    var i :| 0 <= i < |query| && MatchesItem(e, query[i]);
    item := query[i];
    KeysGrow(hash, item.tags, e.tags);
  }

  /** Any two events that match a safe query carry a lock key in common. */
  lemma MatchesShareAKey(hash: Hash, query: seq<Item>, a: Event, b: Event)
    requires Safe(hash, query) && MatchesQuery(a, query) && MatchesQuery(b, query)
    ensures Clash(KeysOf(hash, a.tags), KeysOf(hash, b.tags))
  {
    hide KeysOf, MatchesQuery;
    var i := MatchCarriesKeys(hash, a, query);
    var j := MatchCarriesKeys(hash, b, query);
    ClashGrows(KeysOf(hash, i.tags), KeysOf(hash, j.tags), KeysOf(hash, a.tags), KeysOf(hash, b.tags));
  }

  // ---------------------------------------------------------------------------
  // Steps
  // ---------------------------------------------------------------------------

  /** The conflict count is positive: a committed row above some read's own marker matches that read. */
  ghost predicate Conflict(log: Rows, condition: Condition) {
    exists p, r :: p in log && r in condition.checks && p > r.marker && MatchesQuery(log[p], r.query)
  }

  function ChecksOf(condition: Condition): seq<Read> {
    seq(|condition.checks|, i requires 0 <= i < |condition.checks| =>
      Read(CompileQuery(condition.checks[i].query), condition.checks[i].marker))
  }

  /** A conflict is a committed row the generated statement selects. */
  lemma ConflictIsTheStatement(log: Rows, condition: Condition)
    requires condition.checks != [] && ReadsAreSound(ChecksOf(condition))
    requires forall r :: r in condition.checks ==> r.query != []
    requires forall p :: p in log ==> PlainEvent(log[p])
    ensures Conflict(log, condition) <==>
            exists p :: p in log &&
              Where(JoinOr(ConflictClauses(ChecksOf(condition), 1)), ConflictParams(ChecksOf(condition), 1), RowOf(p, log[p])) == Value(true)
  {
    var checks := ChecksOf(condition);
    hide Where, ConflictClauses, ConflictParams, JoinOr, RowOf, CompileQuery, ReadsAreSound, MatchesQuery, Matches;
    forall p | p in log
      ensures Where(JoinOr(ConflictClauses(checks, 1)), ConflictParams(checks, 1), RowOf(p, log[p])) ==
              Value(AboveSomeMarker(checks, p, log[p]))
      ensures AboveSomeMarker(checks, p, log[p]) <==>
              exists r :: r in condition.checks && p > r.marker && MatchesQuery(log[p], r.query)
    {
      ConflictCheckMeans(checks, p, log[p]);
      forall i | 0 <= i < |checks|
        ensures Matches(log[p], checks[i].criteria) == MatchesQuery(log[p], condition.checks[i].query)
      {
        CompiledQuery(condition.checks[i].query, log[p], Tag("", ""));
      }
    }
  }

  datatype Step =
    | Begin(t: nat, events: seq<Event>, condition: Option<Condition>)
    | Acquire(t: nat, lock: Lock)
    | Refuse(t: nat)
    | Pass(t: nat)
    | Insert(t: nat, position: int)
    | Commit(t: nat)
    | Release(t: nat)
    | Abort(t: nat)
    | Source(query: seq<Item>, start: int)

  /** All locks are in hand and the check is next. */
  ghost predicate ReadyToCheck(hash: Hash, s: Db, t: nat) {
    t in s.txs && s.txs[t].phase.Acquiring? && s.txs[t].held == LockKeys(hash, s.txs[t])
  }

  ghost predicate Refuses(s: Db, t: nat)
    requires t in s.txs
  {
    s.txs[t].condition.Some? && Conflict(s.log, s.txs[t].condition.value)
  }

  function With(s: Db, t: nat, tx: Tx): Db {
    s.(txs := s.txs[t := tx])
  }

  function Without(s: Db, t: nat): Db {
    s.(txs := map u | u in s.txs && u != t :: s.txs[u])
  }

  ghost predicate Takes(hash: Hash, s: Db, step: Step, s': Db) {
    match step
    case Begin(t, events, condition) =>
      && t !in s.txs
      && (condition.Some? ==> forall r :: r in condition.value.checks ==> r in s.sourced)
      && s' == With(s, t, Tx(events, condition, {}, Acquiring, 0, map[]))
    case Acquire(t, lock) =>
      && t in s.txs && s.txs[t].phase.Acquiring?
      && lock in LockKeys(hash, s.txs[t])
      && (forall u, x :: u in s.txs && u != t && x in s.txs[u].held ==> !Opposed(x, lock))
      && s' == With(s, t, s.txs[t].(held := s.txs[t].held + {lock}))
    case Refuse(t) =>
      ReadyToCheck(hash, s, t) && Refuses(s, t) && s' == Without(s, t)
    case Pass(t) =>
      ReadyToCheck(hash, s, t) && !Refuses(s, t) && s' == With(s, t, s.txs[t].(phase := Inserting))
    case Insert(t, position) =>
      && t in s.txs && s.txs[t].phase.Inserting? && s.txs[t].done < |s.txs[t].events|
      && s.next <= position
      && var tx := s.txs[t];
         s' == With(s, t, tx.(done := tx.done + 1, inserted := tx.inserted[position := tx.events[tx.done]])).(next := position + 1)
    case Commit(t) =>
      && t in s.txs && s.txs[t].phase.Inserting? && s.txs[t].done == |s.txs[t].events| > 0
      && s' == With(s, t, s.txs[t].(phase := Committed)).(log := s.log + s.txs[t].inserted)
    case Release(t) =>
      t in s.txs && s.txs[t].phase.Committed? && s' == Without(s, t)
    case Abort(t) =>
      t in s.txs && !s.txs[t].phase.Committed? && s' == Without(s, t)
    case Source(query, start) =>
      s' == s.(sourced := s.sourced + {SourcePlain(s.log, s.next, query, start)})
  }

  ghost predicate Next(hash: Hash, s: Db, s': Db) {
    exists step :: Takes(hash, s, step, s')
  }

  function Init(): Db {
    Db(map[], 1, map[], {})
  }

  ghost predicate Run(hash: Hash, run: seq<Db>) {
    |run| > 0 && run[0] == Init() && forall i :: 0 <= i < |run| - 1 ==> Next(hash, run[i], run[i + 1])
  }

  ghost predicate Reachable(hash: Hash, s: Db) {
    exists run :: Run(hash, run) && run[|run| - 1] == s
  }

  // ---------------------------------------------------------------------------
  // The invariant
  // ---------------------------------------------------------------------------

  /** The row is inserted and not yet visible. */
  ghost predicate InFlight(s: Db, t: nat, p: int) {
    t in s.txs && !s.txs[t].phase.Committed? && p in s.txs[t].inserted
  }

  /** Positions lie below the sequence. */
  ghost predicate Below(s: Db) {
    && 1 <= s.next
    && (forall p :: p in s.log ==> p < s.next)
    && (forall t, p :: t in s.txs && p in s.txs[t].inserted ==> p < s.next)
  }

  /** What has committed is in the log, and what has not is not. */
  ghost predicate Visible(s: Db) {
    && (forall t, p :: t in s.txs && s.txs[t].phase.Committed? && p in s.txs[t].inserted ==>
          p in s.log && s.log[p] == s.txs[t].inserted[p])
    && (forall t, p :: InFlight(s, t, p) ==> p !in s.log)
  }

  /** No position is taken twice. */
  ghost predicate Distinct(s: Db) {
    forall t, u, p :: t != u && t in s.txs && u in s.txs && p in s.txs[t].inserted ==> p !in s.txs[u].inserted
  }

  ghost predicate Positions(s: Db) {
    Below(s) && Visible(s) && Distinct(s)
  }

  /** A transaction's locks are complete once its check ran, and cover what it inserted. */
  ghost predicate Own(hash: Hash, tx: Tx) {
    && (!tx.phase.Acquiring? ==> tx.held == LockKeys(hash, tx))
    && (forall p :: p in tx.inserted ==> !tx.phase.Acquiring? && tx.inserted[p] in tx.events)
  }

  ghost predicate Exclusive(s: Db) {
    forall t, u :: t in s.txs && u in s.txs && t != u ==> !Clash(s.txs[t].held, s.txs[u].held)
  }

  ghost predicate Locking(hash: Hash, s: Db) {
    (forall t :: t in s.txs ==> Own(hash, s.txs[t])) && Exclusive(s)
  }

  /** A row in flight lies above every committed row it shares a lock key with. */
  ghost predicate Prefix(hash: Hash, s: Db) {
    forall t, p, q | InFlight(s, t, p) && q in s.log && Clash(KeysOf(hash, s.txs[t].inserted[p].tags), KeysOf(hash, s.log[q].tags))
      :: q < p
  }

  /** Between a read's start and its marker lies nothing it did not return, committed or in flight. */
  ghost predicate Complete(s: Db, r: ReadResult) {
    && (forall p :: p in s.log && r.start <= p <= r.marker && MatchesQuery(s.log[p], r.query) ==> p in r.rows)
    && (forall t, p :: InFlight(s, t, p) && MatchesQuery(s.txs[t].inserted[p], r.query) ==> !(r.start <= p <= r.marker))
  }

  ghost predicate WellRead(s: Db, r: ReadResult) {
    && r.start - 1 <= r.marker && (r.start <= r.marker ==> r.marker in r.rows)
    && (forall p :: p in r.rows ==> r.start <= p <= r.marker && p in s.log && s.log[p] == r.rows[p] && MatchesQuery(r.rows[p], r.query))
  }

  ghost predicate Reading(hash: Hash, s: Db) {
    && (forall r :: r in s.sourced ==> WellRead(s, r))
    && (forall r :: r in s.sourced && Safe(hash, r.query) ==> Complete(s, r))
  }

  ghost predicate Conditioned(hash: Hash, tx: Tx) {
    tx.condition.Some? && SafeReads(hash, tx.condition.value) && Guarded(hash, tx)
  }

  /** The read is one the transaction is conditioned on. */
  ghost predicate Reads(s: Db, t: nat, r: ReadResult) {
    t in s.txs && s.txs[t].condition.Some? && r in s.txs[t].condition.value.checks
  }

  /** Every committed match of the read, other than the transaction's own rows, is one the read returned. */
  ghost predicate UpToDate(s: Db, t: nat, r: ReadResult)
    requires t in s.txs
  {
    forall p :: p in s.log && p >= r.start && MatchesQuery(s.log[p], r.query) && p !in s.txs[t].inserted ==> p in r.rows
  }

  ghost predicate OwnRowsUnread(tx: Tx, r: ReadResult) {
    forall p :: p in tx.inserted ==> p !in r.rows
  }

  ghost predicate Checked(hash: Hash, s: Db) {
    && (forall t, r :: Reads(s, t, r) ==> r in s.sourced && OwnRowsUnread(s.txs[t], r))
    && (forall t, r :: Reads(s, t, r) && !s.txs[t].phase.Acquiring? && Conditioned(hash, s.txs[t]) ==> UpToDate(s, t, r))
  }

  ghost predicate Inv(hash: Hash, s: Db) {
    Positions(s) && Locking(hash, s) && Prefix(hash, s) && Reading(hash, s) && Checked(hash, s)
  }

  // ---------------------------------------------------------------------------
  // Every step keeps it
  // ---------------------------------------------------------------------------

  /** No row is inserted, shown or withdrawn from view. */
  ghost predicate Quiet(s: Db, s': Db) {
    && s'.log == s.log && s'.next == s.next && s'.sourced == s.sourced
    && (forall u :: u in s'.txs && u in s.txs ==>
          && s'.txs[u].events == s.txs[u].events && s'.txs[u].condition == s.txs[u].condition
          && s'.txs[u].phase.Committed? == s.txs[u].phase.Committed? && s'.txs[u].inserted == s.txs[u].inserted)
    && (forall u :: u in s'.txs && u !in s.txs ==> s'.txs[u].phase.Acquiring? && s'.txs[u].inserted == map[])
  }

  predicate IsQuiet(step: Step) {
    !step.Insert? && !step.Commit? && !step.Source?
  }

  lemma QuietSteps(hash: Hash, s: Db, step: Step, s': Db)
    requires Takes(hash, s, step, s') && IsQuiet(step)
    ensures Quiet(s, s')
  {
    hide LockKeys, Conflict;
  }

  lemma QuietKeeps(hash: Hash, s: Db, s': Db)
    requires Positions(s) && Prefix(hash, s) && Reading(hash, s) && Quiet(s, s')
    ensures Positions(s') && Prefix(hash, s') && Reading(hash, s')
  {
    hide MatchesQuery, KeysOf, LockKeys, Safe, Clash;
    assert forall t, p :: InFlight(s', t, p) ==> InFlight(s, t, p) && s'.txs[t].inserted[p] == s.txs[t].inserted[p];
    forall r | r in s'.sourced ensures WellRead(s', r) && (Safe(hash, r.query) ==> Complete(s', r)) {
      assert WellRead(s, r);
    }
  }

  lemma SameConditions(hash: Hash, s: Db, s': Db)
    requires forall u :: u in s'.txs && u in s.txs ==>
               s'.txs[u].events == s.txs[u].events && s'.txs[u].condition == s.txs[u].condition
    ensures forall u :: u in s'.txs && u in s.txs ==>
               LockKeys(hash, s'.txs[u]) == LockKeys(hash, s.txs[u]) && Conditioned(hash, s'.txs[u]) == Conditioned(hash, s.txs[u])
    ensures forall u, r :: u in s.txs && Reads(s', u, r) ==> Reads(s, u, r)
  {
    hide SafeReads, KeysOf;
    forall u | u in s'.txs && u in s.txs
      ensures LockKeys(hash, s'.txs[u]) == LockKeys(hash, s.txs[u]) && Conditioned(hash, s'.txs[u]) == Conditioned(hash, s.txs[u])
    {
      assert LockKeys(hash, s'.txs[u]) == LockKeys(hash, s.txs[u]);
      hide LockKeys;
    }
  }

  lemma QuietKeepsChecked(hash: Hash, s: Db, step: Step, s': Db)
    requires Reading(hash, s) && Checked(hash, s) && Takes(hash, s, step, s') && IsQuiet(step) && Quiet(s, s')
    ensures Checked(hash, s')
  {
    SameConditions(hash, s, s');
    hide MatchesQuery, Conditioned, LockKeys, Reading, Conflict;
    forall t, r | Reads(s', t, r) ensures r in s'.sourced {
    }
    forall t, r | Reads(s', t, r) && !s'.txs[t].phase.Acquiring? && Conditioned(hash, s'.txs[t])
      ensures UpToDate(s', t, r)
    {
      assert t in s.txs && Reads(s, t, r);
      if s.txs[t].phase.Acquiring? {
        PassedCheckIsUpToDate(hash, s, t, r);
      }
      assert UpToDate(s, t, r);
    }
  }

  lemma NothingNewHeld(s: Db, s': Db)
    requires Exclusive(s)
    requires forall u :: u in s'.txs ==> s'.txs[u].held == {} || (u in s.txs && s'.txs[u].held == s.txs[u].held)
    ensures Exclusive(s')
  {
  }

  lemma OneMoreHeld(s: Db, t: nat, lock: Lock, s': Db)
    requires Exclusive(s) && t in s.txs && t in s'.txs && s'.txs[t].held == s.txs[t].held + {lock}
    requires forall u :: u in s'.txs && u != t ==> u in s.txs && s'.txs[u].held == s.txs[u].held
    requires forall u, x :: u in s.txs && u != t && x in s.txs[u].held ==> !Opposed(x, lock)
    ensures Exclusive(s')
  {
    forall u, x | u in s.txs && u != t && x in s.txs[u].held ensures !Opposed(lock, x) {
      assert !Opposed(x, lock);
    }
  }

  lemma QuietKeepsExclusive(hash: Hash, s: Db, step: Step, s': Db)
    requires Exclusive(s) && Takes(hash, s, step, s') && IsQuiet(step)
    ensures Exclusive(s')
  {
    hide LockKeys, Conflict, Exclusive;
    if step.Acquire? {
      OneMoreHeld(s, step.t, step.lock, s');
    } else {
      NothingNewHeld(s, s');
    }
  }

  lemma QuietKeepsLocking(hash: Hash, s: Db, step: Step, s': Db)
    requires Locking(hash, s) && Takes(hash, s, step, s') && IsQuiet(step) && Quiet(s, s')
    ensures Locking(hash, s')
  {
    SameConditions(hash, s, s');
    hide LockKeys, Conflict, Conditioned, Clash;
    QuietKeepsExclusive(hash, s, step, s');
    hide Exclusive;
    forall u | u in s'.txs ensures Own(hash, s'.txs[u]) {
      assert u in s.txs ==> Own(hash, s.txs[u]);
    }
  }

  lemma QuietStep(hash: Hash, s: Db, step: Step, s': Db)
    requires Inv(hash, s) && Takes(hash, s, step, s') && IsQuiet(step)
    ensures Inv(hash, s')
  {
    hide Takes, Positions, Prefix, Reading, Locking, Checked;
    QuietSteps(hash, s, step, s');
    QuietKeeps(hash, s, s');
    QuietKeepsChecked(hash, s, step, s');
    QuietKeepsLocking(hash, s, step, s');
  }

  lemma PassedCheckIsUpToDate(hash: Hash, s: Db, t: nat, r: ReadResult)
    requires Reading(hash, s) && Checked(hash, s) && Reads(s, t, r) && Conditioned(hash, s.txs[t]) && !Refuses(s, t)
    ensures UpToDate(s, t, r)
  {
    hide MatchesQuery, Safe, Guarded;
    assert Complete(s, r);
  }

  lemma InsertAdds(hash: Hash, s: Db, t: nat, position: int, s': Db)
    requires Takes(hash, s, Insert(t, position), s')
    ensures s'.log == s.log && s'.next == position + 1 > s.next && forall u :: u in s'.txs <==> u in s.txs
    ensures forall u :: u in s.txs ==> s'.txs[u].phase == s.txs[u].phase
    ensures forall u, p :: u in s.txs && p in s.txs[u].inserted && p != position ==>
              p in s'.txs[u].inserted && s'.txs[u].inserted[p] == s.txs[u].inserted[p]
    ensures forall u, p :: u in s.txs && p in s'.txs[u].inserted ==>
              p in s.txs[u].inserted || (p == position && u == t)
  {
  }

  lemma InsertKeepsBelow(hash: Hash, s: Db, t: nat, position: int, s': Db)
    requires Below(s) && Distinct(s) && Takes(hash, s, Insert(t, position), s')
    ensures Below(s') && Distinct(s')
  {
    InsertAdds(hash, s, t, position, s');
    hide Takes;
  }

  lemma InsertInFlight(hash: Hash, s: Db, t: nat, position: int, s': Db)
    requires Takes(hash, s, Insert(t, position), s')
    ensures forall u, p :: InFlight(s', u, p) ==> p == position || (InFlight(s, u, p) && s'.txs[u].inserted[p] == s.txs[u].inserted[p])
  {
    InsertAdds(hash, s, t, position, s');
    hide Takes;
  }

  lemma InsertKeepsPositions(hash: Hash, s: Db, t: nat, position: int, s': Db)
    requires Positions(s) && Takes(hash, s, Insert(t, position), s')
    ensures Positions(s')
    ensures forall u, p :: InFlight(s', u, p) ==> p == position || (InFlight(s, u, p) && s'.txs[u].inserted[p] == s.txs[u].inserted[p])
  {
    InsertAdds(hash, s, t, position, s');
    InsertKeepsBelow(hash, s, t, position, s');
    InsertInFlight(hash, s, t, position, s');
    hide Takes, Distinct;
    assert s'.txs[t].phase.Inserting? && s.txs[t].phase.Inserting? by {
      InsertsWhileInserting(hash, s, t, position, s');
    }
    assert Visible(s');
  }

  lemma InsertsWhileInserting(hash: Hash, s: Db, t: nat, position: int, s': Db)
    requires Takes(hash, s, Insert(t, position), s')
    ensures t in s.txs && t in s'.txs && s.txs[t].phase.Inserting? && s'.txs[t].phase.Inserting?
  {
  }

  /** The same lock requests, the same locks, and only events of the transaction among its rows. */
  ghost predicate SameLocks(tx: Tx, tx': Tx) {
    && tx'.events == tx.events && tx'.condition == tx.condition && tx'.held == tx.held
    && (tx'.phase.Acquiring? <==> tx.phase.Acquiring?)
    && (forall p :: p in tx'.inserted ==>
          (p in tx.inserted && tx'.inserted[p] == tx.inserted[p]) || (!tx.phase.Acquiring? && tx'.inserted[p] in tx.events))
  }

  lemma SameLocksOwn(hash: Hash, tx: Tx, tx': Tx)
    requires SameLocks(tx, tx') && Own(hash, tx)
    ensures Own(hash, tx')
  {
    assert LockKeys(hash, tx') == LockKeys(hash, tx);
    hide LockKeys;
  }

  lemma SameLocksKeepLocking(hash: Hash, s: Db, s': Db)
    requires Locking(hash, s) && forall u :: u in s'.txs ==> u in s.txs && SameLocks(s.txs[u], s'.txs[u])
    ensures Locking(hash, s')
  {
    hide Clash, Own;
    forall u | u in s'.txs ensures Own(hash, s'.txs[u]) {
      SameLocksOwn(hash, s.txs[u], s'.txs[u]);
    }
  }

  lemma InsertKeepsLocking(hash: Hash, s: Db, t: nat, position: int, s': Db)
    requires Locking(hash, s) && Takes(hash, s, Insert(t, position), s')
    ensures Locking(hash, s')
  {
    hide Locking;
    assert forall u :: u in s'.txs ==> u in s.txs && SameLocks(s.txs[u], s'.txs[u]);
    SameLocksKeepLocking(hash, s, s');
  }

  lemma InsertKeeps(hash: Hash, s: Db, t: nat, position: int, s': Db)
    requires Positions(s) && Locking(hash, s) && Prefix(hash, s) && Takes(hash, s, Insert(t, position), s')
    ensures Positions(s') && Locking(hash, s') && Prefix(hash, s')
  {
    InsertKeepsPositions(hash, s, t, position, s');
    InsertKeepsLocking(hash, s, t, position, s');
    hide Locking, KeysOf, Clash;
  }

  lemma InsertKeepsReading(hash: Hash, s: Db, t: nat, position: int, s': Db)
    requires Positions(s) && Reading(hash, s) && Takes(hash, s, Insert(t, position), s')
    ensures Reading(hash, s')
  {
    InsertKeepsPositions(hash, s, t, position, s');
    hide MatchesQuery, Safe, Visible, Distinct;
    forall r | r in s'.sourced ensures WellRead(s', r) && (r.marker < position || r.marker == r.start - 1) {
      assert WellRead(s, r);
    }
    forall r | r in s'.sourced && Safe(hash, r.query) ensures Complete(s', r) {
      assert Complete(s, r);
    }
  }

  lemma InsertKeepsChecked(hash: Hash, s: Db, t: nat, position: int, s': Db)
    requires Positions(s) && Reading(hash, s) && Checked(hash, s) && Takes(hash, s, Insert(t, position), s')
    ensures Checked(hash, s')
  {
    SameConditions(hash, s, s');
    InsertAdds(hash, s, t, position, s');
    hide MatchesQuery, Safe, Conditioned, LockKeys, Visible, Distinct, Complete;
    forall u, r, p | Reads(s', u, r) && p in s'.txs[u].inserted ensures p !in r.rows {
      assert Reads(s, u, r) && WellRead(s, r);
    }
    forall u, r | Reads(s', u, r) && !s'.txs[u].phase.Acquiring? && Conditioned(hash, s'.txs[u])
      ensures UpToDate(s', u, r)
    {
      assert UpToDate(s, u, r);
    }
  }

  /** A row about to become visible carries keys its transaction still holds. */
  lemma RowIsLocked(hash: Hash, s: Db, t: nat, p: int)
    requires Locking(hash, s) && InFlight(s, t, p)
    ensures KeysOf(hash, s.txs[t].inserted[p].tags) <= s.txs[t].held
  {
    WrittenKeys(hash, s.txs[t], s.txs[t].inserted[p]);
  }

  lemma CommitShows(hash: Hash, s: Db, t: nat, s': Db)
    requires Positions(s) && Takes(hash, s, Commit(t), s')
    ensures forall p :: p in s.log ==> p in s'.log && s'.log[p] == s.log[p]
    ensures forall p :: p in s.txs[t].inserted ==> InFlight(s, t, p)
    ensures forall u, p :: InFlight(s', u, p) ==> u != t && InFlight(s, u, p) && s'.txs[u] == s.txs[u]
  {
    assert forall p :: p in s.txs[t].inserted ==> InFlight(s, t, p);
  }

  lemma CommitMoves(hash: Hash, s: Db, t: nat, s': Db)
    requires Takes(hash, s, Commit(t), s')
    ensures t in s.txs && s'.next == s.next && forall u :: u in s'.txs <==> u in s.txs
    ensures forall u :: u in s.txs ==> s'.txs[u].inserted == s.txs[u].inserted
    ensures forall u :: u in s.txs && u != t ==> s'.txs[u] == s.txs[u]
    ensures forall p :: p in s'.log ==> p in s.log || p in s.txs[t].inserted
    ensures forall p :: p in s.txs[t].inserted ==> p in s'.log && s'.log[p] == s.txs[t].inserted[p]
  {
  }

  lemma CommitKeepsPositions(hash: Hash, s: Db, t: nat, s': Db)
    requires Positions(s) && Takes(hash, s, Commit(t), s')
    ensures Positions(s')
  {
    CommitKeepsVisible(hash, s, t, s');
    CommitMoves(hash, s, t, s');
    hide Takes, Visible;
  }

  lemma CommitKeepsVisible(hash: Hash, s: Db, t: nat, s': Db)
    requires Positions(s) && Takes(hash, s, Commit(t), s')
    ensures Visible(s')
  {
    CommitShows(hash, s, t, s');
    CommitMoves(hash, s, t, s');
    hide Takes, Below;
    forall u, p | InFlight(s', u, p) ensures p !in s'.log {
      assert p !in s.txs[t].inserted by {
        hide Visible;
      }
    }
    hide Distinct;
    forall u, p | u in s'.txs && s'.txs[u].phase.Committed? && p in s'.txs[u].inserted
      ensures p in s'.log && s'.log[p] == s'.txs[u].inserted[p]
    {
    }
  }

  lemma CommitKeepsLocking(hash: Hash, s: Db, t: nat, s': Db)
    requires Locking(hash, s) && Takes(hash, s, Commit(t), s')
    ensures Locking(hash, s')
  {
    hide Locking;
    assert forall u :: u in s'.txs ==> u in s.txs && SameLocks(s.txs[u], s'.txs[u]);
    SameLocksKeepLocking(hash, s, s');
  }

  lemma CommitKeepsPrefix(hash: Hash, s: Db, t: nat, s': Db)
    requires Inv(hash, s) && Takes(hash, s, Commit(t), s')
    ensures Prefix(hash, s')
  {
    hide MatchesQuery, KeysOf, LockKeys, Safe, Reading, Checked, Positions;
    forall u, p, q | InFlight(s', u, p) && q in s'.log && Clash(KeysOf(hash, s'.txs[u].inserted[p].tags), KeysOf(hash, s'.log[q].tags))
      ensures q < p
    {
      assert u != t && InFlight(s, u, p);
      if q in s.txs[t].inserted {
        RowIsLocked(hash, s, t, q);
        RowIsLocked(hash, s, u, p);
        ClashGrows(KeysOf(hash, s.txs[u].inserted[p].tags), KeysOf(hash, s.txs[t].inserted[q].tags), s.txs[u].held, s.txs[t].held);
        assert false;
      }
    }
  }

  lemma CommitKeepsRead(hash: Hash, s: Db, t: nat, s': Db, r: ReadResult)
    requires Positions(s) && Takes(hash, s, Commit(t), s') && WellRead(s, r)
    ensures WellRead(s', r)
  {
    CommitShows(hash, s, t, s');
    hide Takes, Positions, MatchesQuery;
  }

  lemma CommitKeepsComplete(hash: Hash, s: Db, t: nat, s': Db, r: ReadResult)
    requires Positions(s) && Takes(hash, s, Commit(t), s') && Complete(s, r)
    ensures Complete(s', r)
  {
    CommitShows(hash, s, t, s');
    CommitMoves(hash, s, t, s');
    hide Takes, Positions, MatchesQuery;
    forall p | p in s'.log && r.start <= p <= r.marker && MatchesQuery(s'.log[p], r.query)
      ensures p in r.rows
    {
      assert p in s.log || InFlight(s, t, p);
    }
  }

  lemma CommitKeepsReading(hash: Hash, s: Db, t: nat, s': Db)
    requires Inv(hash, s) && Takes(hash, s, Commit(t), s')
    ensures Reading(hash, s')
  {
    CommitShowsRows(hash, s, t, s');
    hide Takes, WellRead, Complete, Safe, Locking, Checked, Prefix, Positions;
    forall r | r in s'.sourced ensures WellRead(s', r) {
      CommitKeepsRead(hash, s, t, s', r);
    }
    forall r | r in s'.sourced && Safe(hash, r.query) ensures Complete(s', r) {
      CommitKeepsComplete(hash, s, t, s', r);
    }
  }

  lemma CommitKeepsOneChecked(hash: Hash, s: Db, t: nat, s': Db, u: nat, r: ReadResult)
    requires Locking(hash, s) && Checked(hash, s) && Takes(hash, s, Commit(t), s') && Reads(s', u, r)
    ensures r in s'.sourced && OwnRowsUnread(s'.txs[u], r)
    ensures !s'.txs[u].phase.Acquiring? && Conditioned(hash, s'.txs[u]) ==> UpToDate(s', u, r)
  {
    CommitShowsRows(hash, s, t, s');
    SameConditions(hash, s, s');
    hide Takes, Conditioned, UpToDate, OwnRowsUnread, Locking;
    assert u in s.txs && Reads(s, u, r);
    SameRowsUnread(s.txs[u], s'.txs[u], r);
    if !s'.txs[u].phase.Acquiring? && Conditioned(hash, s'.txs[u]) {
      CommitKeepsUpToDate(hash, s, t, s', u, r);
    }
  }

  /** While a conditioned transaction holds its locks, nobody else's match of its reads can commit. */
  lemma CommitKeepsChecked(hash: Hash, s: Db, t: nat, s': Db)
    requires Inv(hash, s) && Takes(hash, s, Commit(t), s')
    ensures Checked(hash, s')
  {
    hide Takes, Locking, Positions, Prefix, Reading, Conditioned, UpToDate, OwnRowsUnread, Reads;
    forall u, r | Reads(s', u, r)
      ensures u in s'.txs && r in s'.sourced && OwnRowsUnread(s'.txs[u], r)
      ensures !s'.txs[u].phase.Acquiring? && Conditioned(hash, s'.txs[u]) ==> UpToDate(s', u, r)
    {
      ReaderIsThere(s', u, r);
      CommitKeepsOneChecked(hash, s, t, s', u, r);
    }
    CheckedOneByOne(hash, s');
  }

  lemma ReaderIsThere(s: Db, t: nat, r: ReadResult)
    requires Reads(s, t, r)
    ensures t in s.txs
  {
  }

  lemma CheckedOneByOne(hash: Hash, s: Db)
    requires forall u, r :: Reads(s, u, r) ==> u in s.txs && r in s.sourced && OwnRowsUnread(s.txs[u], r)
    requires forall u, r :: Reads(s, u, r) && u in s.txs && !s.txs[u].phase.Acquiring? && Conditioned(hash, s.txs[u]) ==> UpToDate(s, u, r)
    ensures Checked(hash, s)
  {
  }

  lemma SameRowsUnread(tx: Tx, tx': Tx, r: ReadResult)
    requires tx'.inserted == tx.inserted
    ensures OwnRowsUnread(tx, r) ==> OwnRowsUnread(tx', r)
  {
  }

  lemma CommitShowsRows(hash: Hash, s: Db, t: nat, s': Db)
    requires Takes(hash, s, Commit(t), s')
    ensures s'.sourced == s.sourced && s'.txs.Keys == s.txs.Keys && t in s.txs && s.txs[t].phase.Inserting?
    ensures forall u :: u in s.txs ==> s'.txs[u] == if u == t then s.txs[u].(phase := Committed) else s.txs[u]
  {
  }

  lemma CommitKeepsUpToDate(hash: Hash, s: Db, t: nat, s': Db, u: nat, r: ReadResult)
    requires Locking(hash, s) && Takes(hash, s, Commit(t), s') && Reads(s, u, r) && UpToDate(s, u, r)
    requires u in s'.txs && (s.txs[u].phase.Acquiring? ==> u == t) && Conditioned(hash, s.txs[u])
    ensures UpToDate(s', u, r)
  {
    hide MatchesQuery, KeysOf, LockKeys, Conditioned, Locking;
    forall p | p in s'.log && p >= r.start && MatchesQuery(s'.log[p], r.query) && p !in s'.txs[u].inserted
      ensures p in r.rows
    {
      if p in s.txs[t].inserted {
        OthersCannotMatch(hash, s, t, u, r, p);
        assert false;
      }
    }
  }

  /** A row in flight that matches somebody else's checked read would need a lock that somebody holds. */
  lemma OthersCannotMatch(hash: Hash, s: Db, t: nat, u: nat, r: ReadResult, p: int)
    requires Locking(hash, s) && InFlight(s, t, p) && t != u
    requires Reads(s, u, r) && !s.txs[u].phase.Acquiring? && Conditioned(hash, s.txs[u])
    ensures !MatchesQuery(s.txs[t].inserted[p], r.query)
  {
    RowIsLocked(hash, s, t, p);
    hide KeysOf, LockKeys, MatchesQuery, SafeReads;
    assert Own(hash, s.txs[u]);
    if MatchesQuery(s.txs[t].inserted[p], r.query) {
      var item := MatchCarriesKeys(hash, s.txs[t].inserted[p], r.query);
      ClashGrows(KeysOf(hash, item.tags), LockKeys(hash, s.txs[u]), s.txs[t].held, s.txs[u].held);
      assert false;
    }
  }

  lemma SourceKeepsReading(hash: Hash, s: Db, query: seq<Item>, start: int, s': Db)
    requires Inv(hash, s) && Takes(hash, s, Source(query, start), s')
    ensures Reading(hash, s')
  {
    hide MatchesQuery, KeysOf, LockKeys, Safe, Clash, Locking, Checked;
    var r := SourcePlain(s.log, s.next, query, start);
    assert forall t, p :: InFlight(s', t, p) == InFlight(s, t, p);
    if Safe(hash, query) {
      forall t, p | InFlight(s', t, p) && MatchesQuery(s.txs[t].inserted[p], query)
        ensures !(start <= p <= r.marker)
      {
        if start <= r.marker {
          MatchesShareAKey(hash, query, s.txs[t].inserted[p], r.rows[r.marker]);
        }
      }
      assert Complete(s', r);
    }
    forall q | q in s.sourced ensures WellRead(s', q) && (Safe(hash, q.query) ==> Complete(s', q)) {
      assert WellRead(s, q);
    }
  }

  lemma SourceKeeps(hash: Hash, s: Db, query: seq<Item>, start: int, s': Db)
    requires Inv(hash, s) && Takes(hash, s, Source(query, start), s')
    ensures Inv(hash, s')
  {
    SourceKeepsReading(hash, s, query, start, s');
    SourceKeepsChecked(hash, s, query, start, s');
    hide Reading, Checked, SourcePlain;
    ReadsChangeNoRow(hash, s, s');
  }

  lemma ReadsChangeNoRow(hash: Hash, s: Db, s': Db)
    requires s' == s.(sourced := s'.sourced)
    requires Positions(s) && Locking(hash, s) && Prefix(hash, s)
    ensures Positions(s') && Locking(hash, s') && Prefix(hash, s')
  {
    hide KeysOf, Clash, Own;
    assert Below(s') && Distinct(s') by {
      hide Locking, Prefix, Visible;
    }
    assert forall t, p :: InFlight(s', t, p) == InFlight(s, t, p);
    assert Visible(s') by {
      hide Locking, Prefix, Below, Distinct, InFlight;
    }
    hide Positions, Below, Visible, Distinct;
    assert Locking(hash, s') by {
      hide Prefix;
    }
    hide Locking, InFlight;
  }

  lemma SourceKeepsChecked(hash: Hash, s: Db, query: seq<Item>, start: int, s': Db)
    requires Checked(hash, s) && Takes(hash, s, Source(query, start), s')
    ensures Checked(hash, s')
  {
    hide MatchesQuery, Conditioned, SourcePlain;
    assert forall t, r :: Reads(s', t, r) == Reads(s, t, r);
    forall t, r | Reads(s', t, r) && !s'.txs[t].phase.Acquiring? && Conditioned(hash, s'.txs[t])
      ensures UpToDate(s', t, r)
    {
      assert UpToDate(s, t, r);
    }
  }

  lemma StepKeepsInv(hash: Hash, s: Db, step: Step, s': Db)
    requires Inv(hash, s) && Takes(hash, s, step, s')
    ensures Inv(hash, s')
  {
    match step {
      case Insert(t, position) =>
        InsertKeeps(hash, s, t, position, s');
        InsertKeepsReading(hash, s, t, position, s');
        InsertKeepsChecked(hash, s, t, position, s');
      case Commit(t) =>
        CommitKeepsPositions(hash, s, t, s');
        CommitKeepsLocking(hash, s, t, s');
        CommitKeepsPrefix(hash, s, t, s');
        CommitKeepsReading(hash, s, t, s');
        CommitKeepsChecked(hash, s, t, s');
      case Source(query, start) => SourceKeeps(hash, s, query, start, s');
      case _ => QuietStep(hash, s, step, s');
    }
  }

  lemma {:induction false} RunKeepsInv(hash: Hash, run: seq<Db>)
    requires Run(hash, run)
    ensures Inv(hash, run[|run| - 1])
  {
    if |run| > 1 {
      var n := |run| - 1;
      assert Run(hash, run[..n]);
      RunKeepsInv(hash, run[..n]);
      assert Next(hash, run[n - 1], run[n]);
      var step :| Takes(hash, run[n - 1], step, run[n]);
      StepKeepsInv(hash, run[n - 1], step, run[n]);
    }
  }

  lemma ReachableInv(hash: Hash, s: Db)
    requires Reachable(hash, s)
    ensures Inv(hash, s)
  {
    var run :| Run(hash, run) && run[|run| - 1] == s;
    RunKeepsInv(hash, run);
  }

  // ---------------------------------------------------------------------------
  // What it guarantees
  // ---------------------------------------------------------------------------

  /**
    The visible events of a tag are a prefix of all of them: whatever carries the tag and is
    still in flight lies above everything committed that carries it.
  */
  lemma VisibleEventsOfATagAreAPrefix(hash: Hash, s: Db, tag: Tag, t: nat, p: int, q: int)
    requires Reachable(hash, s)
    requires InFlight(s, t, p) && tag in s.txs[t].inserted[p].tags
    requires q in s.log && tag in s.log[q].tags
    ensures q < p
  {
    ReachableInv(hash, s);
    var k := Lock(hash.leaf(EncodeTag(tag)), false);
    assert k in KeysOf(hash, s.txs[t].inserted[p].tags) && k in KeysOf(hash, s.log[q].tags) && Opposed(k, k);
  }

  /**
    A marker stays true: in every state reached after a read of a safe query, between the
    read's start and its marker there is nothing the read did not return, committed or in flight.
  */
  lemma MarkerStaysTrue(hash: Hash, s: Db, r: ReadResult)
    requires Reachable(hash, s) && r in s.sourced && Safe(hash, r.query)
    ensures Complete(s, r)
    ensures forall p :: p in r.rows <==> p in Select(s.log, r.query, r.start) && p <= r.marker
    ensures forall p :: p in r.rows ==> r.rows[p] == s.log[p]
  {
    ReachableInv(hash, s);
    hide MatchesQuery, Safe, Positions, Locking, Prefix, Checked;
    assert WellRead(s, r);
  }

  /** Some committed match of the read was not returned by it. */
  ghost predicate Stale(s: Db, r: ReadResult) {
    exists p :: p in Select(s.log, r.query, r.start) && p !in r.rows
  }

  /** The conflict check refuses exactly when some read is stale, each read judged by its own marker. */
  lemma RefusesExactlyWhenStale(hash: Hash, s: Db, t: nat)
    requires Reachable(hash, s) && ReadyToCheck(hash, s, t)
    requires s.txs[t].condition.Some? && SafeReads(hash, s.txs[t].condition.value)
    ensures Refuses(s, t) <==> exists r :: Reads(s, t, r) && Stale(s, r)
  {
    ReachableInv(hash, s);
    hide MatchesQuery, Safe, Positions, Locking, Prefix, LockKeys;
    var c := s.txs[t].condition.value;
    if Refuses(s, t) {
      var p, r :| p in s.log && r in c.checks && p > r.marker && MatchesQuery(s.log[p], r.query);
      assert Reads(s, t, r) && WellRead(s, r);
      assert p !in r.rows && p >= r.start;
      assert Stale(s, r);
    }
    if r :| Reads(s, t, r) && Stale(s, r) {
      var p :| p in Select(s.log, r.query, r.start) && p !in r.rows;
      assert Complete(s, r);
      assert p > r.marker;
    }
  }

  function Others(rows: Rows, own: Rows): Rows {
    map p | p in rows && p !in own :: rows[p]
  }

  /** The committed matches of each of the transaction's reads, its own rows left out, are what the read returned. */
  ghost predicate Exact(s: Db, t: nat)
    requires t in s.txs
  {
    forall r :: Reads(s, t, r) ==> r.rows == Others(Select(s.log, r.query, r.start), s.txs[t].inserted)
  }

  /** The same from the weaker premise that the held locks meet every item read. */
  lemma GuardedAppendSawEverything(hash: Hash, s: Db, t: nat)
    requires Reachable(hash, s) && t in s.txs && s.txs[t].phase.Committed? && Conditioned(hash, s.txs[t])
    ensures Exact(s, t)
  {
    ReachableInv(hash, s);
    hide MatchesQuery, Conditioned, Positions, Locking, Prefix;
    forall r | Reads(s, t, r)
      ensures r.rows == Others(Select(s.log, r.query, r.start), s.txs[t].inserted)
    {
      SeenIsAll(s, t, r);
    }
  }

  lemma SeenIsAll(s: Db, t: nat, r: ReadResult)
    requires t in s.txs && WellRead(s, r) && UpToDate(s, t, r)
    requires forall p :: p in s.txs[t].inserted ==> p !in r.rows
    ensures r.rows == Others(Select(s.log, r.query, r.start), s.txs[t].inserted)
  {
    hide MatchesQuery;
    var others := Others(Select(s.log, r.query, r.start), s.txs[t].inserted);
    assert forall p :: p in others <==> p in r.rows;
    assert others == r.rows;
  }

  /**
    When a conditional append has committed, the committed events matching each of its reads,
    its own left out, are exactly the events that read returned.
  */
  lemma CommittedAppendSawEverything(hash: Hash, s: Db, t: nat)
    requires Reachable(hash, s) && t in s.txs && s.txs[t].phase.Committed?
    requires s.txs[t].condition.Some? && SafeReads(hash, s.txs[t].condition.value) && Covers(s.txs[t].condition.value)
    ensures Exact(s, t)
  {
    CoveringGuards(hash, s.txs[t]);
    GuardedAppendSawEverything(hash, s, t);
  }
}
