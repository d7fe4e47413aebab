/**
  Exactly when a stream opened at a bare position delivers nothing at or below it. The
  condition speaks of the store at the moment the stream is opened.
*/
module TailingExactness {
  import opened Wrappers
  import opened Criteria
  import opened Tailing

  type Query = Option<seq<Item>>

  ghost predicate Pending(db: Store, r: Key) {
    r.xid in db.open && r in db.open[r.xid]
  }

  /** A wanted row at or below the position, committed or in flight. */
  ghost predicate Old(db: Store, p: int, query: Query, r: Key) {
    && r.position <= p
    && ((r in db.rows && Wants(query, db.rows[r])) || (Pending(db, r) && Wants(query, db.open[r.xid][r])))
  }

  /**
    Nothing can put the cursor before such a row: no older transaction is open, no wanted row
    past the position comes before it, and, when the stream is filtered and the row is still
    in flight, no row at all that a look could jump to.
  */
  ghost predicate Undisturbed(db: Store, p: int, query: Query, r: Key) {
    && (forall u :: u in db.open ==> r.xid <= u)
    && (forall k :: k in db.rows && Wants(query, db.rows[k]) && k.position > p ==> !Before(k, r))
    && (query.Some? && Pending(db, r) ==> forall c :: c in db.rows ==> r.xid <= c.xid)
  }

  ghost predicate CanMatch(query: Query) {
    exists e :: Wants(query, e)
  }

  ghost predicate Clean(db: Store, p: int, query: Query) {
    && (CanMatch(query) ==> db.nextPosition > p)
    && forall r :: Old(db, p, query, r) ==> Undisturbed(db, p, query, r)
  }

  // ---------------------------------------------------------------------------
  // Sufficient
  // ---------------------------------------------------------------------------

  /** No old row lies beyond the point from which tuples are compared. */
  ghost predicate PastOld(db: Store, p: int, query: Query, floor: Key) {
    forall r :: Old(db, p, query, r) ==> !Before(floor, r)
  }

  ghost predicate CleanInv(p: int, query: Query, s: State) {
    && Clean(s.db, p, query)
    && (s.reader.cursor.At? ==> PastOld(s.db, p, query, s.floor))
    && (forall at :: at in s.saved ==> PastOld(s.db, p, query, at.floor))
  }

  lemma OldOnesStayOld(db: Store, step: Step, db': Store, p: int, query: Query, r: Key)
    requires Sound(db) && DbStep(db, step, db') && Clean(db, p, query) && Old(db', p, query, r)
    ensures Old(db, p, query, r) && (Pending(db', r) ==> Pending(db, r))
  {
    hide Wants;
    if step.Insert? {
      assert Wants(query, step.event) ==> CanMatch(query);
    }
  }

  lemma StaysUndisturbed(db: Store, step: Step, db': Store, p: int, query: Query, r: Key)
    requires Sound(db) && DbStep(db, step, db') && Clean(db, p, query) && Old(db', p, query, r)
    ensures Undisturbed(db', p, query, r)
  {
    OldOnesStayOld(db, step, db', p, query, r);
    hide Wants;
    assert Undisturbed(db, p, query, r);
    if step.Commit? {
      forall k | k in db'.rows && k !in db.rows
        ensures k.xid == step.xid && (k.position > p ==> !Before(k, r))
      {
      }
    }
  }

  lemma StaysClean(db: Store, step: Step, db': Store, p: int, query: Query)
    requires Sound(db) && DbStep(db, step, db') && Clean(db, p, query)
    ensures Clean(db', p, query)
    ensures forall floor :: PastOld(db, p, query, floor) ==> PastOld(db', p, query, floor)
  {
    hide Old, Undisturbed;
    assert db'.nextPosition >= db.nextPosition;
    forall r | Old(db', p, query, r)
      ensures Old(db, p, query, r) && Undisturbed(db', p, query, r)
    {
      OldOnesStayOld(db, step, db', p, query, r);
      StaysUndisturbed(db, step, db', p, query, r);
    }
  }

  /** A wanted row past the position is a safe place to compare from. */
  lemma LaterRowIsPastOld(db: Store, p: int, query: Query, k: Key)
    requires Clean(db, p, query) && k in db.rows && Wants(query, db.rows[k]) && k.position > p
    ensures PastOld(db, p, query, k)
  {
    hide Wants, Old;
  }

  /** So is the newest row under the watermark, where a filtered stream jumps to. */
  lemma NewestRowIsPastOld(db: Store, p: int, query: Query, c: Key)
    requires Sound(db) && Clean(db, p, query) && query.Some? && IsNewest(db, c)
    ensures PastOld(db, p, query, c)
  {
    hide Wants;
    forall r | Old(db, p, query, r)
      ensures !Before(c, r)
    {
      assert Undisturbed(db, p, query, r);
      if r in db.rows {
        assert Settled(db, r.xid);
      }
    }
  }

  lemma DeliveredAreLater(p: int, query: Query, s: State, d: Key)
    requires Inv(p, query, s) && CleanInv(p, query, s) && d in s.taken + s.reader.buffer
    ensures d.position > p && d in s.db.rows && Wants(query, s.db.rows[d])
  {
    hide Wants, SavedInv, Sound, Clean;
    assert Due(s.db, p, query, s.reader.cursor.key, s.floor, d);
    assert d.position <= p ==> Old(s.db, p, query, d);
  }

  lemma StepKeepsClean(p: int, query: Query, limit: nat, s: State, step: Step, s': State)
    requires limit >= 1 && Inv(p, query, s) && Inv(p, query, s') && CleanInv(p, query, s) && Takes(query, limit, s, step, s')
    ensures CleanInv(p, query, s')
  {
    StaysClean(s.db, step, s'.db, p, query);
    hide Clean, PastOld, CaughtUpTo;
    if step.Fetch? {
      if step.batch != [] && s.reader.cursor.Bare? {
        var k := step.batch[|step.batch| - 1];
        assert k in step.batch && Selects(s.db, query, s.reader.cursor, k);
        LaterRowIsPastOld(s.db, p, query, k);
      }
    } else if step.Look? {
      if step.answer.Some? {
        NewestRowIsPastOld(s.db, p, query, step.answer.value);
      }
    } else if step.Next? {
      var k := s.reader.buffer[0];
      assert k in s.taken + s.reader.buffer;
      DeliveredAreLater(p, query, s, k);
      LaterRowIsPastOld(s.db, p, query, k);
    }
  }

  lemma {:induction false} RunStaysClean(p: int, query: Query, limit: nat, run: seq<State>, i: nat)
    requires Run(p, query, limit, run) && i < |run| && Clean(run[0].db, p, query)
    ensures Inv(p, query, run[i]) && CleanInv(p, query, run[i])
  {
    RunKeepsInv(p, query, limit, run, i);
    if i > 0 {
      RunStaysClean(p, query, limit, run, i - 1);
      assert StepAt(query, limit, run, i);
      var step :| Takes(query, limit, run[i - 1], step, run[i]);
      hide Inv, Takes, CleanInv;
      StepKeepsClean(p, query, limit, run[i - 1], step, run[i]);
    }
  }

  // ---------------------------------------------------------------------------
  // Necessary
  // ---------------------------------------------------------------------------

  ghost predicate ReachedFrom(p: int, query: Query, limit: nat, s0: State, s: State) {
    exists run :: Run(p, query, limit, run) && run[0] == s0 && run[|run| - 1] == s
  }

  ghost predicate Delivers(s: State, d: Key) {
    d in s.taken + s.reader.buffer
  }

  /** In no run does a stream opened here deliver anything at or below its position. */
  ghost predicate OnlyLater(p: int, query: Query, limit: nat, s0: State) {
    forall s, d :: ReachedFrom(p, query, limit, s0, s) && Delivers(s, d) ==> d.position > p
  }

  lemma Extend(p: int, query: Query, limit: nat, s0: State, s: State, step: Step, s': State)
    requires ReachedFrom(p, query, limit, s0, s) && Takes(query, limit, s, step, s')
    ensures ReachedFrom(p, query, limit, s0, s')
  {
    var run :| Run(p, query, limit, run) && run[0] == s0 && run[|run| - 1] == s;
    var longer := run + [s'];
    assert NextState(query, limit, s, s');
    hide NextState, Takes;
    forall i: nat
      ensures StepAt(query, limit, longer, i)
    {
      if i < |run| {
        assert StepAt(query, limit, run, i);
      }
    }
    assert Run(p, query, limit, longer) && longer[0] == s0 && longer[|longer| - 1] == s';
  }

  lemma Earliest(keys: set<Key>) returns (k: Key)
    requires keys != {}
    ensures k in keys && forall other :: other in keys ==> AtOrBefore(k, other)
    decreases |keys|
  {
    k :| k in keys;
    var rest := keys - {k};
    assert keys == rest + {k};
    if rest != {} {
      var other := Earliest(rest);
      if Before(other, k) {
        k := other;
      }
    }
  }

  lemma Latest(keys: set<Key>) returns (k: Key)
    requires keys != {}
    ensures k in keys && forall other :: other in keys ==> AtOrBefore(other, k)
    decreases |keys|
  {
    k :| k in keys;
    var rest := keys - {k};
    assert keys == rest + {k};
    if rest != {} {
      var other := Latest(rest);
      if Before(k, other) {
        k := other;
      }
    }
  }

  lemma InOrder(keys: set<Key>) returns (batch: seq<Key>)
    ensures Ascending(batch) && |batch| == |keys| && forall k :: k in batch <==> k in keys
    decreases |keys|
  {
    if keys == {} {
      batch := [];
    } else {
      var k := Earliest(keys);
      var rest := InOrder(keys - {k});
      batch := [k] + rest;
      AscendingJoin([k], rest);
    }
  }

  ghost function SelectedKeys(db: Store, query: Query, cursor: Cursor): (keys: set<Key>)
    ensures forall k :: k in keys <==> Selects(db, query, cursor, k)
  {
    set k | k in db.rows && Selects(db, query, cursor, k)
  }

  /** A fetch comes back with the first rows it selects, as many as it asks for. */
  lemma FetchSome(p: int, query: Query, limit: nat, s0: State, s: State, k: Key) returns (s': State, batch: seq<Key>)
    requires limit >= 1 && ReachedFrom(p, query, limit, s0, s) && !s.reader.looking && Selects(s.db, query, s.reader.cursor, k)
    ensures batch != [] && IsBatch(s.db, query, s.reader.cursor, limit, batch)
    ensures ReachedFrom(p, query, limit, s0, s')
    ensures s' == s.(reader := Fetched(s.reader, batch), floor := SwitchedAt(s, batch[|batch| - 1]))
  {
    hide Selects;
    var keys := SelectedKeys(s.db, query, s.reader.cursor);
    var all := InOrder(keys);
    assert k in all;
    batch := if |all| <= limit then all else all[..limit];
    FirstOnes(all, batch, limit);
    assert IsBatch(s.db, query, s.reader.cursor, limit, batch);
    s' := s.(reader := Fetched(s.reader, batch), floor := SwitchedAt(s, batch[|batch| - 1]));
    assert Takes(query, limit, s, Fetch(batch), s');
    hide ReachedFrom, Takes;
    Extend(p, query, limit, s0, s, Fetch(batch), s');
  }

  lemma FirstOnes(all: seq<Key>, batch: seq<Key>, limit: nat)
    requires Ascending(all) && limit >= 1 && batch == if |all| <= limit then all else all[..limit]
    ensures Ascending(batch) && |batch| <= limit && (all != [] ==> batch != [])
    ensures forall k :: k in batch ==> k in all
    ensures forall k :: k in all && k !in batch ==> |batch| == limit
    ensures forall k, b :: k in all && k !in batch && b in batch ==> Before(b, k)
  {
    assert forall i :: 0 <= i < |batch| ==> batch[i] == all[i];
    forall k, b | k in all && k !in batch && b in batch
      ensures Before(b, k)
    {
      var i :| 0 <= i < |all| && all[i] == k;
      var j :| 0 <= j < |batch| && batch[j] == b;
      assert i >= |batch|;
    }
  }

  /** Fetching on from a tuple comes to every row it selects. */
  lemma {:induction false} ReadUntil(p: int, query: Query, limit: nat, s0: State, s: State, r: Key) returns (s': State)
    requires limit >= 1 && ReachedFrom(p, query, limit, s0, s) && !s.reader.looking && s.reader.cursor.At?
    requires Selects(s.db, query, s.reader.cursor, r)
    ensures ReachedFrom(p, query, limit, s0, s') && Delivers(s', r)
    decreases |SelectedKeys(s.db, query, s.reader.cursor)|
  {
    hide ReachedFrom;
    var t, batch := FetchSome(p, query, limit, s0, s, r);
    var last := batch[|batch| - 1];
    if r in batch {
      s' := t;
    } else {
      assert last in batch && Before(last, r);
      assert Selects(t.db, query, t.reader.cursor, r);
      var old_, new_ := SelectedKeys(s.db, query, s.reader.cursor), SelectedKeys(t.db, query, t.reader.cursor);
      assert Selects(s.db, query, s.reader.cursor, last) && last in old_ && last !in new_;
      assert new_ <= old_ - {last};
      SmallerSet(new_, old_ - {last});
      s' := ReadUntil(p, query, limit, s0, t, r);
    }
  }

  /** Transactions may end in any way: those kept commit, all others abort. */
  lemma EndAll(p: int, query: Query, limit: nat, s0: State, s: State, keep: set<nat>) returns (s': State)
    requires ReachedFrom(p, query, limit, s0, s) && Sound(s.db)
    ensures ReachedFrom(p, query, limit, s0, s') && s' == s.(db := s'.db) && s'.db.open == map[] && Sound(s'.db)
    ensures forall k :: k in s.db.rows ==> k in s'.db.rows && s'.db.rows[k] == s.db.rows[k]
    ensures forall u, k :: u in s.db.open && u in keep && k in s.db.open[u] ==> k in s'.db.rows && s'.db.rows[k] == s.db.open[u][k]
    decreases |s.db.open|
  {
    hide ReachedFrom;
    if s.db.open.Keys == {} {
      s' := s;
      assert s.db.open == map[];
    } else {
      var x :| x in s.db.open;
      var t := EndOne(p, query, limit, s0, s, x, x in keep);
      assert t.db.open.Keys == s.db.open.Keys - {x};
      assert |t.db.open| == |t.db.open.Keys| < |s.db.open.Keys| == |s.db.open|;
      s' := EndAll(p, query, limit, s0, t, keep);
    }
  }

  lemma EndOne(p: int, query: Query, limit: nat, s0: State, s: State, x: nat, keep: bool) returns (t: State)
    requires ReachedFrom(p, query, limit, s0, s) && Sound(s.db) && x in s.db.open
    ensures ReachedFrom(p, query, limit, s0, t) && Sound(t.db)
    ensures t == s.(db := EndTx(s.db, x).(rows := if keep then s.db.rows + s.db.open[x] else s.db.rows))
    ensures forall k :: k in s.db.rows ==> k in t.db.rows && t.db.rows[k] == s.db.rows[k]
  {
    hide ReachedFrom;
    var step := if keep then Commit(x) else Abort(x);
    t := s.(db := EndTx(s.db, x).(rows := if keep then s.db.rows + s.db.open[x] else s.db.rows));
    assert Takes(query, limit, s, step, t);
    Extend(p, query, limit, s0, s, step, t);
    DbStepKeepsSound(s.db, step, t.db);
  }

  /** A reader that takes one row and comes back at its token compares tuples from there. */
  lemma TakesAndReopens(p: int, query: Query, limit: nat, s0: State, s: State, batch: seq<Key>) returns (s': State)
    requires ReachedFrom(p, query, limit, s0, s) && s.reader.buffer == batch != [] && s.taken == []
    ensures ReachedFrom(p, query, limit, s0, s') && s'.db == s.db && s'.reader == Opened(At(batch[0]))
  {
    hide ReachedFrom;
    var t := s.(reader := s.reader.(buffer := batch[1..]), taken := s.taken + [batch[0]]);
    var at := EventToken(t);
    var u := t.(saved := t.saved + {at});
    assert Takes(query, limit, s, Next, u);
    Extend(p, query, limit, s0, s, Next, u);
    s' := u.(reader := Opened(At(at.token)), taken := at.taken, floor := at.floor);
    assert Takes(query, limit, u, Reopen(at), s');
    Extend(p, query, limit, s0, u, Reopen(at), s');
  }

  /** Once both have committed, the later position first in tuple order, the old row is delivered after it. */
  lemma DeliversBoth(p: int, query: Query, limit: nat, s0: State, s: State, k: Key, r: Key)
    requires limit >= 1 && ReachedFrom(p, query, limit, s0, s)
    requires s.db.open == map[] && Sound(s.db) && s.reader == Opened(Bare(p)) && s.taken == []
    requires k in s.db.rows && Wants(query, s.db.rows[k]) && k.position > p
    requires r in s.db.rows && Wants(query, s.db.rows[r]) && r.position <= p && Before(k, r)
    ensures !OnlyLater(p, query, limit, s0)
  {
    hide ReachedFrom, Wants, OnlyLater;
    assert Selects(s.db, query, s.reader.cursor, k);
    var t, batch := FetchSome(p, query, limit, s0, s, k);
    FirstIsFirst(s.db, query, s.reader.cursor, limit, batch, k);
    assert [] + batch == batch;
    var u := TakesAndReopens(p, query, limit, s0, t, batch);
    assert Selects(u.db, query, u.reader.cursor, r);
    var v := ReadUntil(p, query, limit, s0, u, r);
    ReachesOld(p, query, limit, s0, v, r);
  }

  lemma FirstIsFirst(db: Store, query: Query, cursor: Cursor, limit: nat, batch: seq<Key>, k: Key)
    requires batch != [] && IsBatch(db, query, cursor, limit, batch) && Selects(db, query, cursor, k)
    ensures AtOrBefore(batch[0], k)
  {
    hide Selects;
    if k in batch {
      var i :| 0 <= i < |batch| && batch[i] == k;
    } else {
      assert batch[0] in batch;
    }
  }

  /** The committed or in-flight row and its event. */
  lemma OldEvent(db: Store, p: int, query: Query, r: Key) returns (e: Event)
    requires Old(db, p, query, r)
    ensures Wants(query, e)
    ensures (r in db.rows && db.rows[r] == e) || (Pending(db, r) && db.open[r.xid][r] == e)
  {
    hide Wants;
    e := if r in db.rows && Wants(query, db.rows[r]) then db.rows[r] else db.open[r.xid][r];
  }

  lemma WantedRowBefore(p: int, query: Query, limit: nat, s: State, k: Key, r: Key)
    requires limit >= 1 && Start(p, s) && Old(s.db, p, query, r)
    requires k in s.db.rows && Wants(query, s.db.rows[k]) && k.position > p && Before(k, r)
    ensures !OnlyLater(p, query, limit, s)
  {
    hide Wants, OnlyLater;
    FromHere(p, query, limit, s);
    var e := OldEvent(s.db, p, query, r);
    hide ReachedFrom;
    var t := EndAll(p, query, limit, s, s, {r.xid});
    DeliversBoth(p, query, limit, s, t, k, r);
  }

  lemma FromHere(p: int, query: Query, limit: nat, s: State)
    requires limit >= 1 && Start(p, s)
    ensures ReachedFrom(p, query, limit, s, s)
  {
    var run := [s];
    assert Run(p, query, limit, run) && run[0] == s && run[|run| - 1] == s;
  }

  /** An older open transaction can still insert a wanted row past the position. */
  lemma OlderTransaction(p: int, query: Query, limit: nat, s: State, u: nat, r: Key)
    requires limit >= 1 && Start(p, s) && Old(s.db, p, query, r) && u in s.db.open && u < r.xid
    ensures !OnlyLater(p, query, limit, s)
  {
    hide Wants, OnlyLater;
    FromHere(p, query, limit, s);
    var e := OldEvent(s.db, p, query, r);
    var position := if s.db.nextPosition > p then s.db.nextPosition else p + 1;
    var k := Key(u, position);
    var t := s.(db := s.db.(open := s.db.open[u := s.db.open[u][k := e]], nextPosition := position + 1));
    var step := Insert(u, position, e);
    assert Takes(query, limit, s, step, t);
    Extend(p, query, limit, s, s, step, t);
    DbStepKeepsSound(s.db, step, t.db);
    hide ReachedFrom, Takes;
    var v := EndAll(p, query, limit, s, t, {u, r.xid});
    assert k in t.db.open[u] && k in v.db.rows && v.db.rows[k] == e;
    assert r in v.db.rows && v.db.rows[r] == e;
    DeliversBoth(p, query, limit, s, v, k, r);
  }

  /** Positions at or below `p` are still to be handed out. */
  lemma PositionToCome(p: int, query: Query, limit: nat, s: State)
    requires limit >= 1 && Start(p, s) && CanMatch(query) && s.db.nextPosition <= p
    ensures !OnlyLater(p, query, limit, s)
  {
    hide Wants, OnlyLater;
    FromHere(p, query, limit, s);
    var e :| Wants(query, e);
    var a, b := s.db.nextXid, s.db.nextXid + 1;
    var k, r := Key(a, p + 1), Key(b, s.db.nextPosition);
    var t1 := s.(db := s.db.(open := s.db.open[a := map[]], nextXid := b));
    assert Takes(query, limit, s, Assign, t1);
    Extend(p, query, limit, s, s, Assign, t1);
    DbStepKeepsSound(s.db, Assign, t1.db);
    var t2 := t1.(db := t1.db.(open := t1.db.open[b := map[]], nextXid := b + 1));
    assert Takes(query, limit, t1, Assign, t2);
    Extend(p, query, limit, s, t1, Assign, t2);
    DbStepKeepsSound(t1.db, Assign, t2.db);
    hide ReachedFrom;
    InsertTwo(p, query, limit, s, t2, a, b, k, r, e);
  }

  lemma InsertTwo(p: int, query: Query, limit: nat, s0: State, s: State, a: nat, b: nat, k: Key, r: Key, e: Event)
    requires limit >= 1 && ReachedFrom(p, query, limit, s0, s) && Sound(s.db) && s.reader == Opened(Bare(p)) && s.taken == [] && Wants(query, e)
    requires a in s.db.open && b in s.db.open && a < b && k == Key(a, p + 1) && r == Key(b, s.db.nextPosition) && r.position <= p
    ensures !OnlyLater(p, query, limit, s0)
  {
    hide Wants, OnlyLater, ReachedFrom;
    var one := Insert(b, r.position, e);
    var t := s.(db := s.db.(open := s.db.open[b := s.db.open[b][r := e]], nextPosition := r.position + 1));
    assert Takes(query, limit, s, one, t);
    Extend(p, query, limit, s0, s, one, t);
    DbStepKeepsSound(s.db, one, t.db);
    var two := Insert(a, p + 1, e);
    var u := t.(db := t.db.(open := t.db.open[a := t.db.open[a][k := e]], nextPosition := p + 2));
    assert Takes(query, limit, t, two, u);
    Extend(p, query, limit, s0, t, two, u);
    DbStepKeepsSound(t.db, two, u.db);
    hide Takes;
    var v := EndAll(p, query, limit, s0, u, {a, b});
    assert k in u.db.open[a] && r in u.db.open[b];
    DeliversBoth(p, query, limit, s0, v, k, r);
  }

  /** A filtered stream can jump to a row before one that is still in flight. */
  lemma JumpsBefore(p: int, query: Query, limit: nat, s: State, c: Key, r: Key)
    requires limit >= 1 && Start(p, s) && query.Some? && Old(s.db, p, query, r) && Pending(s.db, r) && c in s.db.rows && c.xid < r.xid
    requires forall u :: u in s.db.open ==> r.xid <= u
    requires forall k :: k in s.db.rows && Wants(query, s.db.rows[k]) && k.position > p ==> !Before(k, r)
    ensures !OnlyLater(p, query, limit, s)
  {
    hide Wants, OnlyLater;
    FromHere(p, query, limit, s);
    assert r !in s.db.rows;
    forall k
      ensures !Selects(s.db, query, s.reader.cursor, k)
    {
    }
    var under := set k | k in s.db.rows && Settled(s.db, k.xid);
    assert Settled(s.db, c.xid) && c in under;
    var to := Latest(under);
    assert IsNewest(s.db, to) && Before(to, r);
    var t := LooksTo(p, query, limit, s, to);
    hide ReachedFrom;
    var u := EndOne(p, query, limit, s, t, r.xid, true);
    assert Selects(u.db, query, u.reader.cursor, r);
    var v := ReadUntil(p, query, limit, s, u, r);
    ReachesOld(p, query, limit, s, v, r);
  }

  lemma ReachesOld(p: int, query: Query, limit: nat, s0: State, s: State, r: Key)
    requires ReachedFrom(p, query, limit, s0, s) && Delivers(s, r) && r.position <= p
    ensures !OnlyLater(p, query, limit, s0)
  {
    hide ReachedFrom, Delivers;
  }

  lemma LooksTo(p: int, query: Query, limit: nat, s: State, to: Key) returns (t: State)
    requires limit >= 1 && Start(p, s) && query.Some? && IsNewest(s.db, to) && ReachedFrom(p, query, limit, s, s)
    requires forall k :: !Selects(s.db, query, s.reader.cursor, k)
    ensures ReachedFrom(p, query, limit, s, t) && t.db == s.db && t.reader.cursor == At(to) && !t.reader.looking
  {
    hide Selects, IsNewest, ReachedFrom;
    var fetched := s.(reader := Fetched(s.reader, []));
    assert IsBatch(s.db, query, s.reader.cursor, limit, []);
    assert Takes(query, limit, s, Fetch([]), fetched);
    Extend(p, query, limit, s, s, Fetch([]), fetched);
    t := fetched.(reader := Looked(fetched.reader, Some(to)), floor := SwitchedAt(fetched, to));
    assert IsLook(s.db, query, fetched.reader.cursor, Some(to));
    assert Takes(query, limit, fetched, Look(Some(to)), t);
    Extend(p, query, limit, s, fetched, Look(Some(to)), t);
  }

  // ---------------------------------------------------------------------------
  // Exact
  // ---------------------------------------------------------------------------

  lemma CleanIsEnough(p: int, query: Query, limit: nat, s: State)
    requires limit >= 1 && Start(p, s) && Clean(s.db, p, query)
    ensures OnlyLater(p, query, limit, s)
  {
    forall t, d | ReachedFrom(p, query, limit, s, t) && Delivers(t, d)
      ensures d.position > p
    {
      var run :| Run(p, query, limit, run) && run[0] == s && run[|run| - 1] == t;
      RunStaysClean(p, query, limit, run, |run| - 1);
      hide Inv, CleanInv, Run;
      DeliveredAreLater(p, query, t, d);
    }
  }

  lemma CleanIsNeeded(p: int, query: Query, limit: nat, s: State)
    requires limit >= 1 && Start(p, s) && !Clean(s.db, p, query)
    ensures !OnlyLater(p, query, limit, s)
  {
    hide OnlyLater, Wants;
    if CanMatch(query) && s.db.nextPosition <= p {
      PositionToCome(p, query, limit, s);
    } else {
      var r :| Old(s.db, p, query, r) && !Undisturbed(s.db, p, query, r);
      if u :| u in s.db.open && u < r.xid {
        OlderTransaction(p, query, limit, s, u, r);
      } else if k :| k in s.db.rows && Wants(query, s.db.rows[k]) && k.position > p && Before(k, r) {
        WantedRowBefore(p, query, limit, s, k, r);
      } else {
        var c :| c in s.db.rows && c.xid < r.xid;
        JumpsBefore(p, query, limit, s, c, r);
      }
    }
  }

  /** For every query, every fetch limit and every store the stream is opened on: nothing at or below the position in any run, if and only if the store is clean. */
  lemma OnlyLaterExactlyWhenClean(p: int, query: Query, limit: nat, s: State)
    requires limit >= 1 && Start(p, s)
    ensures OnlyLater(p, query, limit, s) <==> Clean(s.db, p, query)
  {
    if Clean(s.db, p, query) {
      CleanIsEnough(p, query, limit, s);
    } else {
      CleanIsNeeded(p, query, limit, s);
    }
  }
}
