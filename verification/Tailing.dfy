/**
  The tailing stream of the event store: a cursor over (transaction id, position) under the
  watermark of the oldest open transaction.

  Environment, as the step relation states it: transaction ids are handed out in order and a
  transaction may take its id at any time before it inserts; positions come from a sequence
  at insert and may be lost; rows become visible at commit, so positions commit out of order.
  A fetch and a look past a quiet stretch are one statement each, and anything may happen
  between the two.
*/
module Tailing {
  import opened Wrappers
  import opened Criteria
  import opened AppendProtocol

  /** `pg_current_xact_id()` never returns less. */
  const FirstXid: nat := 3

  /** (transaction_id, sequence_position), compared as a tuple. */
  datatype Key = Key(xid: nat, position: int)

  /** `rows` are committed; `open` holds the uncommitted rows of each transaction that has an id. */
  datatype Store = Store(rows: map<Key, Event>, open: map<nat, map<Key, Event>>, nextXid: nat, nextPosition: int)

  /** The sentinel id "0" stands for a bare position; a gap-aware token gives a tuple. */
  datatype Cursor = Bare(position: int) | At(key: Key)

  /** `looking` is a fetch that came back empty and has yet to look past the quiet stretch. */
  datatype Reader = Reader(cursor: Cursor, buffer: seq<Key>, looked: Option<Key>, looking: bool)

  predicate Before(a: Key, b: Key) {
    a.xid < b.xid || (a.xid == b.xid && a.position < b.position)
  }

  predicate AtOrBefore(a: Key, b: Key) {
    a == b || Before(a, b)
  }

  function Earlier(a: Key, b: Key): Key {
    if Before(a, b) then a else b
  }

  ghost predicate Ascending(keys: seq<Key>) {
    forall i, j :: 0 <= i < j < |keys| ==> Before(keys[i], keys[j])
  }

  predicate Wants(query: Option<seq<Item>>, e: Event) {
    query.None? || MatchesQuery(e, query.value)
  }

  /** The id is below `pg_snapshot_xmin`: its transaction and every older one has ended. */
  ghost predicate Settled(db: Store, xid: nat) {
    xid < db.nextXid && forall u :: u in db.open ==> xid < u
  }

  predicate Ahead(cursor: Cursor, k: Key) {
    match cursor
    case Bare(p) => k.position > p
    case At(c) => Before(c, k)
  }

  /** The WHERE of a fetch. */
  ghost predicate Selects(db: Store, query: Option<seq<Item>>, cursor: Cursor, k: Key) {
    k in db.rows && Settled(db, k.xid) && Ahead(cursor, k) && Wants(query, db.rows[k])
  }

  /** ORDER BY (transaction_id, sequence_position) LIMIT `limit`. */
  ghost predicate IsBatch(db: Store, query: Option<seq<Item>>, cursor: Cursor, limit: nat, batch: seq<Key>) {
    && Ascending(batch) && |batch| <= limit
    && (forall k :: k in batch ==> Selects(db, query, cursor, k))
    && (forall k :: Selects(db, query, cursor, k) && k !in batch ==> |batch| == limit)
    && (forall k, b :: Selects(db, query, cursor, k) && k !in batch && b in batch ==> Before(b, k))
  }

  /** The newest row under the watermark. */
  ghost predicate IsNewest(db: Store, k: Key) {
    && k in db.rows && Settled(db, k.xid)
    && forall other :: other in db.rows && Settled(db, other.xid) ==> AtOrBefore(other, k)
  }

  /** A filtered stream names the newest row when nothing it wants is ahead, and otherwise has no answer. */
  ghost predicate IsLook(db: Store, query: Option<seq<Item>>, cursor: Cursor, answer: Option<Key>) {
    match answer
    case Some(k) => query.Some? && IsNewest(db, k) && NothingAhead(db, query, cursor)
    case None => query.None? || !NothingAhead(db, query, cursor) || forall k :: k in db.rows ==> !IsNewest(db, k)
  }

  ghost predicate NothingAhead(db: Store, query: Option<seq<Item>>, cursor: Cursor) {
    forall k :: k in db.rows ==> !Selects(db, query, cursor, k)
  }

  // ---------------------------------------------------------------------------
  // The reader
  // ---------------------------------------------------------------------------

  function Fetched(r: Reader, batch: seq<Key>): Reader {
    if batch == [] then r.(looking := true)
    else Reader(At(batch[|batch| - 1]), r.buffer + batch, None, false)
  }

  function Looked(r: Reader, answer: Option<Key>): Reader {
    Reader(if answer.Some? then At(answer.value) else r.cursor, r.buffer, answer, false)
  }

  function ProgressOf(r: Reader): Option<Key> {
    if r.buffer == [] then r.looked else None
  }

  function Opened(cursor: Cursor): Reader {
    Reader(cursor, [], None, false)
  }

  /** The variables `open` closes over, changed as its functions change them. */
  class TailStream {
    var cursorXid: nat
    var cursorPosition: int
    var buffer: seq<Key>
    var looked: Option<Key>
    var looking: bool

    /** Transaction ids start at `FirstXid`, so 0 is free for "no tuple yet". */
    ghost function View(): Reader
      reads this
    {
      Reader(if cursorXid == 0 then Bare(cursorPosition) else At(Key(cursorXid, cursorPosition)), buffer, looked, looking)
    }

    constructor (position: int, resume: Option<Key>)
      requires resume.Some? ==> resume.value.xid > 0
      ensures View() == Opened(if resume.Some? then At(resume.value) else Bare(position))
    {
      cursorPosition := if resume.Some? then resume.value.position else position;
      cursorXid := if resume.Some? then resume.value.xid else 0;
      buffer, looked, looking := [], None, false;
    }

    /** The loop over the rows of a fetch. */
    method Absorb(batch: seq<Key>)
      requires forall k :: k in batch ==> k.xid > 0
      modifies this
      ensures View() == Fetched(old(View()), batch)
    {
      var i := 0;
      while i < |batch|
        invariant 0 <= i <= |batch|
        invariant looked == old(looked) && looking == old(looking)
        invariant buffer == old(buffer) + batch[..i]
        invariant if i == 0 then cursorXid == old(cursorXid) && cursorPosition == old(cursorPosition)
                  else Key(cursorXid, cursorPosition) == batch[i - 1] && cursorXid > 0
      {
        assert batch[i] in batch;
        assert batch[..i + 1] == batch[..i] + [batch[i]];
        buffer := buffer + [batch[i]];
        cursorXid, cursorPosition := batch[i].xid, batch[i].position;
        i := i + 1;
      }
      assert batch[..i] == batch;
      if |batch| == 0 {
        looking := true;
      } else {
        looked, looking := None, false;
      }
    }

    method TakeLook(answer: Option<Key>)
      requires answer.Some? ==> answer.value.xid > 0
      modifies this
      ensures View() == Looked(old(View()), answer)
    {
      looked, looking := answer, false;
      if answer.Some? {
        cursorXid, cursorPosition := answer.value.xid, answer.value.position;
      }
    }

    method Next() returns (taken: Option<Key>)
      modifies this
      ensures old(buffer) == [] ==> taken == None && View() == old(View())
      ensures old(buffer) != [] ==> taken == Some(old(buffer)[0]) && View() == old(View()).(buffer := old(buffer)[1..])
    {
      if buffer == [] {
        taken := None;
      } else {
        taken := Some(buffer[0]);
        buffer := buffer[1..];
      }
    }

    method ProgressToken() returns (token: Option<Key>)
      ensures token == ProgressOf(View())
    {
      token := if buffer == [] then looked else None;
    }
  }

  // ---------------------------------------------------------------------------
  // Runs
  // ---------------------------------------------------------------------------

  /**
    A token a reader was given, with all it had taken by then. `floor` is where the stream
    first had a tuple to compare with, or an earlier token it was reopened at.
  */
  datatype Checkpoint = Checkpoint(token: Key, taken: seq<Key>, floor: Key)

  datatype State = State(db: Store, reader: Reader, taken: seq<Key>, floor: Key, saved: set<Checkpoint>)

  datatype Step =
    | Assign
    | Insert(xid: nat, position: int, event: Event)
    | Commit(xid: nat)
    | Abort(xid: nat)
    | Fetch(batch: seq<Key>)
    | Look(answer: Option<Key>)
    | Next
    | SaveProgress
    | Reopen(at: Checkpoint)

  function EndTx(db: Store, xid: nat): Store {
    db.(open := map u | u in db.open && u != xid :: db.open[u])
  }

  ghost predicate DbStep(db: Store, step: Step, db': Store) {
    match step
    case Assign =>
      db' == db.(open := db.open[db.nextXid := map[]], nextXid := db.nextXid + 1)
    case Insert(x, p, e) =>
      && x in db.open && p >= db.nextPosition
      && db' == db.(open := db.open[x := db.open[x][Key(x, p) := e]], nextPosition := p + 1)
    case Commit(x) =>
      x in db.open && db' == EndTx(db, x).(rows := db.rows + db.open[x])
    case Abort(x) =>
      x in db.open && db' == EndTx(db, x)
    case _ => db' == db
  }

  function SwitchedAt(s: State, key: Key): Key {
    if s.reader.cursor.Bare? then key else s.floor
  }

  function EventToken(s: State): Checkpoint
    requires s.taken != []
  {
    var last := s.taken[|s.taken| - 1];
    Checkpoint(last, s.taken, Earlier(s.floor, last))
  }

  ghost predicate ReaderStep(query: Option<seq<Item>>, limit: nat, s: State, step: Step, s': State) {
    match step
    case Fetch(batch) =>
      && !s.reader.looking && IsBatch(s.db, query, s.reader.cursor, limit, batch)
      && s' == s.(reader := Fetched(s.reader, batch),
                  floor := if batch == [] then s.floor else SwitchedAt(s, batch[|batch| - 1]))
    case Look(answer) =>
      && s.reader.looking && IsLook(s.db, query, s.reader.cursor, answer)
      && s' == s.(reader := Looked(s.reader, answer),
                  floor := if answer.None? then s.floor else SwitchedAt(s, answer.value))
    case Next =>
      && s.reader.buffer != []
      && var t := s.(reader := s.reader.(buffer := s.reader.buffer[1..]), taken := s.taken + [s.reader.buffer[0]]);
         s' == t.(saved := t.saved + {EventToken(t)})
    case SaveProgress =>
      && ProgressOf(s.reader).Some?
      && s' == s.(saved := s.saved + {Checkpoint(ProgressOf(s.reader).value, s.taken, s.floor)})
    case Reopen(at) =>
      && at in s.saved
      && s' == s.(reader := Opened(At(at.token)), taken := at.taken, floor := at.floor)
    case _ => s' == s.(db := s'.db)
  }

  ghost predicate Takes(query: Option<seq<Item>>, limit: nat, s: State, step: Step, s': State) {
    DbStep(s.db, step, s'.db) && ReaderStep(query, limit, s, step, s')
  }

  ghost predicate NextState(query: Option<seq<Item>>, limit: nat, s: State, s': State) {
    exists step :: Takes(query, limit, s, step, s')
  }

  /** The step that leads to the run's `i`-th state is one of the protocol's. */
  ghost predicate StepAt(query: Option<seq<Item>>, limit: nat, run: seq<State>, i: nat) {
    0 < i < |run| ==> NextState(query, limit, run[i - 1], run[i])
  }

  /** `limit` is how many rows every fetch asks for. A stream opened at the bare position `p` while anything at all is going on in a sound store. */
  ghost predicate Start(p: int, s: State) {
    Sound(s.db) && s.reader == Opened(Bare(p)) && s.taken == [] && s.saved == {}
  }

  ghost predicate Run(p: int, query: Option<seq<Item>>, limit: nat, run: seq<State>) {
    && limit >= 1 && |run| > 0 && Start(p, run[0])
    && forall i: nat :: StepAt(query, limit, run, i)
  }

  // ---------------------------------------------------------------------------
  // Invariant
  // ---------------------------------------------------------------------------

  /** Ids come from the counter, a transaction's rows carry its id, and it is open or its rows are visible. */
  ghost predicate Sound(db: Store) {
    && FirstXid <= db.nextXid
    && (forall u :: u in db.open ==> FirstXid <= u < db.nextXid)
    && (forall u, k :: u in db.open && k in db.open[u] ==> k.xid == u)
    && (forall k :: k in db.rows ==> FirstXid <= k.xid < db.nextXid && k.xid !in db.open)
  }

  /**
    What has been delivered by the time the cursor stands at `c`: exactly the wanted rows at
    or before it, apart from those at or below `p` that the position filter dropped before
    there was a tuple to compare with.
  */
  ghost predicate CaughtUpTo(db: Store, p: int, query: Option<seq<Item>>, c: Key, floor: Key, delivered: seq<Key>) {
    && Ascending(delivered) && c in db.rows && Settled(db, c.xid) && AtOrBefore(floor, c)
    && forall d :: d in delivered <==> Due(db, p, query, c, floor, d)
  }

  ghost predicate Due(db: Store, p: int, query: Option<seq<Item>>, c: Key, floor: Key, d: Key) {
    && d in db.rows && Wants(query, db.rows[d]) && AtOrBefore(d, c)
    && (d.position > p || Before(floor, d))
  }

  ghost predicate ReaderInv(p: int, query: Option<seq<Item>>, s: State) {
    match s.reader.cursor
    case Bare(q) => q == p && s.taken + s.reader.buffer == [] && s.reader.looked.None?
    case At(c) =>
      && CaughtUpTo(s.db, p, query, c, s.floor, s.taken + s.reader.buffer)
      && (s.reader.looked.Some? ==> s.reader.looked == Some(c))
  }

  ghost predicate SavedInv(p: int, query: Option<seq<Item>>, db: Store, saved: set<Checkpoint>) {
    forall at :: at in saved ==> CaughtUpTo(db, p, query, at.token, at.floor, at.taken)
  }

  ghost predicate Inv(p: int, query: Option<seq<Item>>, s: State) {
    Sound(s.db) && ReaderInv(p, query, s) && SavedInv(p, query, s.db, s.saved)
  }

  lemma DbStepKeepsSound(db: Store, step: Step, db': Store)
    requires Sound(db) && DbStep(db, step, db')
    ensures Sound(db')
  {
  }

  /** A settled id stays settled, and a row that becomes visible lies beyond every settled id. */
  lemma NothingAppearsBehind(db: Store, step: Step, db': Store, xid: nat)
    requires Sound(db) && DbStep(db, step, db') && Settled(db, xid)
    ensures Settled(db', xid)
    ensures forall k :: k in db.rows ==> k in db'.rows && db'.rows[k] == db.rows[k]
    ensures forall k :: k in db'.rows && k !in db.rows ==> k.xid > xid
  {
  }

  lemma DbStepKeepsCaughtUp(db: Store, step: Step, db': Store, p: int, query: Option<seq<Item>>, c: Key, floor: Key, delivered: seq<Key>)
    requires Sound(db) && DbStep(db, step, db') && CaughtUpTo(db, p, query, c, floor, delivered)
    ensures CaughtUpTo(db', p, query, c, floor, delivered)
  {
    hide Wants, DbStep, Sound, Ascending, Settled;
    NothingAppearsBehind(db, step, db', c.xid);
    forall d
      ensures Due(db, p, query, c, floor, d) <==> Due(db', p, query, c, floor, d)
    {
      if d in db'.rows && d !in db.rows {
        assert d.xid > c.xid;
      }
    }
  }

  lemma DbStepKeepsSaved(db: Store, step: Step, db': Store, p: int, query: Option<seq<Item>>, saved: set<Checkpoint>)
    requires Sound(db) && DbStep(db, step, db') && SavedInv(p, query, db, saved)
    ensures SavedInv(p, query, db', saved)
  {
    hide CaughtUpTo, DbStep, Sound;
    forall at | at in saved
      ensures CaughtUpTo(db', p, query, at.token, at.floor, at.taken)
    {
      DbStepKeepsCaughtUp(db, step, db', p, query, at.token, at.floor, at.taken);
    }
  }

  lemma AscendingJoin(a: seq<Key>, b: seq<Key>)
    requires Ascending(a) && Ascending(b) && forall x, y :: x in a && y in b ==> Before(x, y)
    ensures Ascending(a + b)
  {
    var c := a + b;
    forall i, j | 0 <= i < j < |c|
      ensures Before(c[i], c[j])
    {
      if i < |a| <= j {
        assert a[i] in a && b[j - |a|] in b;
      }
    }
  }

  lemma PrefixAscends(a: seq<Key>, b: seq<Key>)
    requires Ascending(a + b)
    ensures Ascending(a)
  {
    var c := a + b;
    forall i, j | 0 <= i < j < |a|
      ensures Before(a[i], a[j])
    {
      assert c[i] == a[i] && c[j] == a[j] && Before(c[i], c[j]);
    }
  }

  lemma BatchAscends(db: Store, query: Option<seq<Item>>, cursor: Cursor, limit: nat, batch: seq<Key>)
    requires IsBatch(db, query, cursor, limit, batch)
    ensures Ascending(batch)
  {
  }

  /** Everything selected up to the end of a batch is in the batch. */
  lemma BatchCovers(db: Store, query: Option<seq<Item>>, cursor: Cursor, limit: nat, batch: seq<Key>, d: Key)
    requires limit >= 1 && batch != [] && IsBatch(db, query, cursor, limit, batch)
    ensures d in batch <==> Selects(db, query, cursor, d) && AtOrBefore(d, batch[|batch| - 1])
  {
    hide Selects;
    var last := batch[|batch| - 1];
    assert last in batch;
    if d in batch {
      var i :| 0 <= i < |batch| && batch[i] == d;
      assert i == |batch| - 1 || Before(batch[i], last);
    } else if Selects(db, query, cursor, d) {
      assert Before(last, d);
    }
  }

  lemma SettledBelow(db: Store, d: Key, c: Key)
    requires Settled(db, c.xid) && AtOrBefore(d, c)
    ensures Settled(db, d.xid)
  {
  }

  lemma FetchFromTuple(db: Store, p: int, query: Option<seq<Item>>, c: Key, floor: Key, delivered: seq<Key>, limit: nat, batch: seq<Key>)
    requires CaughtUpTo(db, p, query, c, floor, delivered)
    requires limit >= 1 && batch != [] && IsBatch(db, query, At(c), limit, batch)
    ensures CaughtUpTo(db, p, query, batch[|batch| - 1], floor, delivered + batch)
  {
    hide Wants, IsBatch, Settled, Ascending;
    var last := batch[|batch| - 1];
    assert last in batch;
    BatchCovers(db, query, At(c), limit, batch, last);
    BatchAscends(db, query, At(c), limit, batch);
    forall d
      ensures d in delivered + batch <==> Due(db, p, query, last, floor, d)
    {
      BatchCovers(db, query, At(c), limit, batch, d);
      if Due(db, p, query, last, floor, d) && !AtOrBefore(d, c) {
        SettledBelow(db, d, last);
      }
    }
    forall x, y | x in delivered && y in batch
      ensures Before(x, y)
    {
      BatchCovers(db, query, At(c), limit, batch, y);
      assert Due(db, p, query, c, floor, x);
    }
    AscendingJoin(delivered, batch);
  }

  /** The first batch of a stream opened at a position: from here on there is a tuple to compare with. */
  lemma FetchFromPosition(db: Store, p: int, query: Option<seq<Item>>, limit: nat, batch: seq<Key>)
    requires limit >= 1 && batch != [] && IsBatch(db, query, Bare(p), limit, batch)
    ensures CaughtUpTo(db, p, query, batch[|batch| - 1], batch[|batch| - 1], batch)
  {
    hide Wants, IsBatch, Settled, Ascending;
    var last := batch[|batch| - 1];
    BatchCovers(db, query, Bare(p), limit, batch, last);
    BatchAscends(db, query, Bare(p), limit, batch);
    forall d
      ensures d in batch <==> Due(db, p, query, last, last, d)
    {
      BatchCovers(db, query, Bare(p), limit, batch, d);
      if Due(db, p, query, last, last, d) {
        SettledBelow(db, d, last);
      }
    }
  }

  /** The jump over a quiet stretch: nothing wanted lies between the cursor and the newest row. */
  lemma JumpFromTuple(db: Store, p: int, query: Option<seq<Item>>, c: Key, floor: Key, delivered: seq<Key>, to: Key)
    requires CaughtUpTo(db, p, query, c, floor, delivered) && IsNewest(db, to) && NothingAhead(db, query, At(c))
    ensures CaughtUpTo(db, p, query, to, floor, delivered)
  {
    hide Wants, Settled, Ascending;
    assert AtOrBefore(c, to);
    forall d
      ensures Due(db, p, query, c, floor, d) <==> Due(db, p, query, to, floor, d)
    {
      if Due(db, p, query, to, floor, d) && !AtOrBefore(d, c) {
        SettledBelow(db, d, to);
      }
    }
  }

  lemma JumpFromPosition(db: Store, p: int, query: Option<seq<Item>>, to: Key)
    requires IsNewest(db, to) && NothingAhead(db, query, Bare(p))
    ensures CaughtUpTo(db, p, query, to, to, [])
  {
    hide Wants, Settled;
    forall d
      ensures !Due(db, p, query, to, to, d)
    {
      if Due(db, p, query, to, to, d) {
        SettledBelow(db, d, to);
      }
    }
  }

  /** The token of the last event taken stands for exactly what was taken. */
  lemma EventTokenIsSafe(db: Store, p: int, query: Option<seq<Item>>, c: Key, floor: Key, taken: seq<Key>, buffer: seq<Key>)
    requires CaughtUpTo(db, p, query, c, floor, taken + buffer) && taken != []
    ensures CaughtUpTo(db, p, query, taken[|taken| - 1], Earlier(floor, taken[|taken| - 1]), taken)
  {
    hide Wants, Settled;
    var last, all := taken[|taken| - 1], taken + buffer;
    assert all[|taken| - 1] == last && last in all;
    assert Due(db, p, query, c, floor, last);
    SettledBelow(db, last, c);
    PrefixAscends(taken, buffer);
    forall d
      ensures d in taken <==> Due(db, p, query, last, Earlier(floor, last), d)
    {
      if d in taken {
        var i :| 0 <= i < |taken| && taken[i] == d;
        assert all[i] == d && (i == |taken| - 1 || Before(all[i], all[|taken| - 1]));
        assert Due(db, p, query, c, floor, d);
      }
      if Due(db, p, query, last, Earlier(floor, last), d) {
        assert Due(db, p, query, c, floor, d);
        var i :| 0 <= i < |all| && all[i] == d;
        assert i < |taken| || Before(all[|taken| - 1], all[i]);
      }
    }
  }

  lemma FetchKeepsReader(p: int, query: Option<seq<Item>>, limit: nat, s: State, step: Step, s': State)
    requires limit >= 1 && step.Fetch? && ReaderInv(p, query, s) && Takes(query, limit, s, step, s')
    ensures ReaderInv(p, query, s')
  {
    hide CaughtUpTo, IsBatch;
    var batch := step.batch;
    if batch != [] {
      assert s'.taken + s'.reader.buffer == s.taken + s.reader.buffer + batch;
      if s.reader.cursor.At? {
        FetchFromTuple(s.db, p, query, s.reader.cursor.key, s.floor, s.taken + s.reader.buffer, limit, batch);
      } else {
        FetchFromPosition(s.db, p, query, limit, batch);
        assert s'.taken + s'.reader.buffer == batch;
      }
    }
  }

  lemma LookKeepsReader(p: int, query: Option<seq<Item>>, limit: nat, s: State, step: Step, s': State)
    requires step.Look? && ReaderInv(p, query, s) && Takes(query, limit, s, step, s')
    ensures ReaderInv(p, query, s')
  {
    hide CaughtUpTo, IsNewest, NothingAhead;
    if step.answer.Some? {
      if s.reader.cursor.At? {
        JumpFromTuple(s.db, p, query, s.reader.cursor.key, s.floor, s.taken + s.reader.buffer, step.answer.value);
      } else {
        JumpFromPosition(s.db, p, query, step.answer.value);
      }
    }
  }

  lemma NextKeeps(p: int, query: Option<seq<Item>>, limit: nat, s: State, step: Step, s': State)
    requires step.Next? && Inv(p, query, s) && Takes(query, limit, s, step, s')
    ensures ReaderInv(p, query, s') && SavedInv(p, query, s'.db, s'.saved)
  {
    hide CaughtUpTo;
    assert s'.taken + s'.reader.buffer == s.taken + s.reader.buffer;
    EventTokenIsSafe(s.db, p, query, s.reader.cursor.key, s.floor, s'.taken, s'.reader.buffer);
  }

  lemma StepKeepsInv(p: int, query: Option<seq<Item>>, limit: nat, s: State, step: Step, s': State)
    requires limit >= 1 && Inv(p, query, s) && Takes(query, limit, s, step, s')
    ensures Inv(p, query, s')
  {
    hide CaughtUpTo, IsBatch, IsNewest, NothingAhead, Sound;
    DbStepKeepsSound(s.db, step, s'.db);
    DbStepKeepsSaved(s.db, step, s'.db, p, query, s.saved);
    if step.Fetch? {
      FetchKeepsReader(p, query, limit, s, step, s');
    } else if step.Look? {
      LookKeepsReader(p, query, limit, s, step, s');
    } else if step.Next? {
      NextKeeps(p, query, limit, s, step, s');
    } else if step.Reopen? {
      assert s'.taken + s'.reader.buffer == step.at.taken;
    } else if step.SaveProgress? {
      assert s.taken + s.reader.buffer == s.taken;
    } else if s.reader.cursor.At? {
      DbStepKeepsCaughtUp(s.db, step, s'.db, p, query, s.reader.cursor.key, s.floor, s.taken + s.reader.buffer);
    }
  }

  lemma {:induction false} RunKeepsInv(p: int, query: Option<seq<Item>>, limit: nat, run: seq<State>, i: nat)
    requires Run(p, query, limit, run) && i < |run|
    ensures Inv(p, query, run[i])
  {
    if i > 0 {
      RunKeepsInv(p, query, limit, run, i - 1);
      assert StepAt(query, limit, run, i);
      var step :| Takes(query, limit, run[i - 1], step, run[i]);
      StepKeepsInv(p, query, limit, run[i - 1], step, run[i]);
    }
  }

  // ---------------------------------------------------------------------------
  // Results over whole runs
  // ---------------------------------------------------------------------------

  /**
    Gap-free tailing: in every reachable state, through restarts at any token, what the
    reader has taken is in strict (id, position) order, so nothing is taken twice, and it is
    made of committed rows it wants.
  */
  lemma TakenInOrderExactlyOnce(p: int, query: Option<seq<Item>>, limit: nat, run: seq<State>, i: nat)
    requires Run(p, query, limit, run) && i < |run|
    ensures Ascending(run[i].taken)
    ensures forall d :: d in run[i].taken ==> d in run[i].db.rows && Wants(query, run[i].db.rows[d])
  {
    hide Wants, Sound, SavedInv;
    RunKeepsInv(p, query, limit, run, i);
    var s := run[i];
    var all := s.taken + s.reader.buffer;
    assert Ascending(all);
    assert forall j :: 0 <= j < |s.taken| ==> all[j] == s.taken[j];
    forall d | d in s.taken
      ensures d in s.db.rows && Wants(query, s.db.rows[d])
    {
      assert d in all;
      assert Due(s.db, p, query, s.reader.cursor.key, s.floor, d);
    }
  }

  lemma {:induction false} RowsOnlyAppearAhead(p: int, query: Option<seq<Item>>, limit: nat, run: seq<State>, i: nat, j: nat, xid: nat)
    requires Run(p, query, limit, run) && i <= j < |run| && Settled(run[i].db, xid)
    ensures Settled(run[j].db, xid)
    ensures forall k :: k in run[i].db.rows ==> k in run[j].db.rows && run[j].db.rows[k] == run[i].db.rows[k]
    ensures forall k :: k in run[j].db.rows && k !in run[i].db.rows ==> k.xid > xid
    decreases j - i
  {
    if i < j {
      RowsOnlyAppearAhead(p, query, limit, run, i, j - 1, xid);
      RunKeepsInv(p, query, limit, run, j - 1);
      assert StepAt(query, limit, run, j);
      var step :| Takes(query, limit, run[j - 1], step, run[j]);
      NothingAppearsBehind(run[j - 1].db, step, run[j].db, xid);
    }
  }

  /** No event ever becomes visible at or behind the cursor. */
  lemma NothingBehindTheCursor(p: int, query: Option<seq<Item>>, limit: nat, run: seq<State>, i: nat, j: nat, k: Key)
    requires Run(p, query, limit, run) && i <= j < |run| && run[i].reader.cursor.At?
    requires k in run[j].db.rows && k !in run[i].db.rows
    ensures Before(run[i].reader.cursor.key, k)
  {
    RunKeepsInv(p, query, limit, run, i);
    RowsOnlyAppearAhead(p, query, limit, run, i, j, run[i].reader.cursor.key.xid);
  }

  /**
    No gap: an event past `p` that the reader wants is delivered, or it is still ahead of the
    cursor, where a fetch selects it as soon as no transaction at or before its own is open.
  */
  lemma DeliveredOrAhead(p: int, query: Option<seq<Item>>, limit: nat, run: seq<State>, i: nat, k: Key)
    requires Run(p, query, limit, run) && i < |run|
    requires k in run[i].db.rows && Wants(query, run[i].db.rows[k]) && k.position > p
    ensures k in run[i].taken + run[i].reader.buffer <==> !Ahead(run[i].reader.cursor, k)
    ensures Settled(run[i].db, k.xid) && k !in run[i].taken + run[i].reader.buffer ==>
              Selects(run[i].db, query, run[i].reader.cursor, k)
  {
    hide Wants, Sound, SavedInv, Ascending;
    RunKeepsInv(p, query, limit, run, i);
    var s := run[i];
    if s.reader.cursor.At? {
      assert k in s.taken + s.reader.buffer <==> Due(s.db, p, query, s.reader.cursor.key, s.floor, k);
    }
  }

  lemma EmptyBatch(db: Store, query: Option<seq<Item>>, cursor: Cursor, limit: nat, k: Key)
    requires limit >= 1 && IsBatch(db, query, cursor, limit, [])
    ensures !Selects(db, query, cursor, k)
  {
    assert k !in [];
  }

  /** A fetch never comes back empty while it could deliver something. */
  lemma EmptyFetchMeansCaughtUp(p: int, query: Option<seq<Item>>, limit: nat, run: seq<State>, i: nat)
    requires Run(p, query, limit, run) && i < |run|
    requires IsBatch(run[i].db, query, run[i].reader.cursor, limit, []) && run[i].reader.buffer == [] && |run[i].db.open| == 0
    ensures forall k :: k in run[i].db.rows && Wants(query, run[i].db.rows[k]) && k.position > p ==> k in run[i].taken
  {
    hide Wants, Ascending;
    RunKeepsInv(p, query, limit, run, i);
    var s := run[i];
    assert s.taken + s.reader.buffer == s.taken;
    forall k | k in s.db.rows && Wants(query, s.db.rows[k]) && k.position > p
      ensures k in s.taken
    {
      DeliveredOrAhead(p, query, limit, run, i, k);
      assert s.db.open == map[];
      EmptyBatch(s.db, query, s.reader.cursor, limit, k);
    }
  }

  /** A progress token names no point past an event the reader has not taken, in this state or any later one. */
  lemma ProgressTokenIsSafe(p: int, query: Option<seq<Item>>, limit: nat, run: seq<State>, i: nat, j: nat, k: Key)
    requires Run(p, query, limit, run) && i <= j < |run| && ProgressOf(run[i].reader).Some?
    requires k in run[j].db.rows && Wants(query, run[j].db.rows[k]) && k.position > p
    requires AtOrBefore(k, ProgressOf(run[i].reader).value)
    ensures k in run[i].taken
  {
    hide Wants, Sound, SavedInv, Ascending, Settled;
    RunKeepsInv(p, query, limit, run, i);
    var s := run[i];
    var c := s.reader.cursor.key;
    assert s.taken + s.reader.buffer == s.taken;
    if k !in s.db.rows {
      NothingBehindTheCursor(p, query, limit, run, i, j, k);
    } else {
      RowsOnlyAppearAhead(p, query, limit, run, i, j, c.xid);
      assert Due(s.db, p, query, c, s.floor, k);
    }
  }

  /**
    A stream reopened at a token, however many commits later, is where the reader was: the
    rows still ahead of it are exactly those past `p` that the reader had not taken then,
    and possibly rows at or below `p` that only a tuple comparison lets through.
  */
  lemma ReopeningContinues(p: int, query: Option<seq<Item>>, limit: nat, run: seq<State>, i: nat, at: Checkpoint, k: Key)
    requires Run(p, query, limit, run) && i < |run| && at in run[i].saved
    requires k in run[i].db.rows && Wants(query, run[i].db.rows[k]) && k.position > p
    ensures k in at.taken <==> !Ahead(Opened(At(at.token)).cursor, k)
    ensures Ascending(at.taken)
  {
    hide Wants, Sound, ReaderInv, Settled;
    RunKeepsInv(p, query, limit, run, i);
    assert CaughtUpTo(run[i].db, p, query, at.token, at.floor, at.taken);
    assert k in at.taken <==> Due(run[i].db, p, query, at.token, at.floor, k);
  }

  // ---------------------------------------------------------------------------
  // Where the bare position differs from the tuple
  // ---------------------------------------------------------------------------

  /** Every position there is or will be lies past `p`. */
  ghost predicate AllPast(p: int, db: Store) {
    && db.nextPosition > p
    && (forall k :: k in db.rows ==> k.position > p)
    && (forall u, k :: u in db.open && k in db.open[u] ==> k.position > p)
  }

  lemma {:induction false} StaysPast(p: int, query: Option<seq<Item>>, limit: nat, run: seq<State>, i: nat)
    requires Run(p, query, limit, run) && i < |run| && AllPast(p, run[0].db)
    ensures AllPast(p, run[i].db)
  {
    if i > 0 {
      StaysPast(p, query, limit, run, i - 1);
      assert StepAt(query, limit, run, i);
      var step :| Takes(query, limit, run[i - 1], step, run[i]);
    }
  }

  /** From the beginning, delivered means exactly: committed, wanted and not ahead of the cursor. */
  lemma FromTheBeginning(p: int, query: Option<seq<Item>>, limit: nat, run: seq<State>, i: nat, k: Key)
    requires Run(p, query, limit, run) && i < |run| && AllPast(p, run[0].db)
    ensures k in run[i].taken + run[i].reader.buffer <==>
            k in run[i].db.rows && Wants(query, run[i].db.rows[k]) && !Ahead(run[i].reader.cursor, k)
  {
    hide Wants, Sound, SavedInv, Ascending, Settled;
    RunKeepsInv(p, query, limit, run, i);
    StaysPast(p, query, limit, run, i);
    var s := run[i];
    if s.reader.cursor.At? {
      assert k in s.taken + s.reader.buffer <==> Due(s.db, p, query, s.reader.cursor.key, s.floor, k);
    }
  }

  /**
    Opened at a later position, a stream may also deliver an event at or below it: here
    position 1 belongs to a later transaction than position 2, and a stream opened at 1
    delivers 2 and then 1.
  */
  lemma LowerPositionAfterHigher(limit: nat, e: Event) returns (run: seq<State>)
    requires limit >= 1
    ensures Run(1, None, limit, run) && run[|run| - 1].taken == [Key(3, 2), Key(4, 1)]
  {
    var db := Store(map[Key(3, 2) := e, Key(4, 1) := e], map[], 5, 3);
    var s0 := State(db, Opened(Bare(1)), [], Key(0, 0), {});
    var s1 := s0.(reader := Fetched(s0.reader, [Key(3, 2)]), floor := Key(3, 2));
    OneRowFetch(limit, e, s0, Key(3, 2), s1);
    var s2 := TakeTheRow(limit, s1);
    var s3 := s2.(reader := Fetched(s2.reader, [Key(4, 1)]));
    OneRowFetch(limit, e, s2, Key(4, 1), s3);
    var s4 := TakeTheRow(limit, s3);
    run := [s0, s1, s2, s3, s4];
    hide NextState;
    assert Start(1, s0);
  }

  lemma OneRowFetch(limit: nat, e: Event, s: State, key: Key, s': State)
    requires limit >= 1 && s.db == Store(map[Key(3, 2) := e, Key(4, 1) := e], map[], 5, 3)
    requires s.reader == Opened(Bare(1)) || (s.reader.cursor == At(Key(3, 2)) && !s.reader.looking)
    requires key == if s.reader.cursor.Bare? then Key(3, 2) else Key(4, 1)
    requires s' == s.(reader := Fetched(s.reader, [key]), floor := SwitchedAt(s, key))
    ensures NextState(None, limit, s, s')
  {
    var batch := [key];
    forall k
      ensures Selects(s.db, None, s.reader.cursor, k) <==> k == key
    {
    }
    hide Selects;
    assert IsBatch(s.db, None, s.reader.cursor, limit, batch);
    assert Takes(None, limit, s, Fetch(batch), s');
  }

  lemma TakeTheRow(limit: nat, s: State) returns (s': State)
    requires |s.reader.buffer| == 1
    ensures NextState(None, limit, s, s')
    ensures s'.taken == s.taken + s.reader.buffer && s'.db == s.db && s'.floor == s.floor
    ensures s'.reader == s.reader.(buffer := [])
  {
    var t := s.(reader := s.reader.(buffer := s.reader.buffer[1..]), taken := s.taken + [s.reader.buffer[0]]);
    s' := t.(saved := t.saved + {EventToken(t)});
    assert Takes(None, limit, s, Next, s');
  }
}
