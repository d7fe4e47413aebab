/**
  How a tailing stream says where it is: a filtered one reports the newest row it has looked
  past, for as long as it holds, and every event handed out leaves a token to go on from.
*/
module TailingProgress {
  import opened Wrappers
  import opened Criteria
  import opened Tailing

  type Filter = Option<seq<Item>>

  // ---------------------------------------------------------------------------
  // Looking past a quiet stretch
  // ---------------------------------------------------------------------------

  ghost predicate SomethingSettled(db: Store) {
    exists k :: k in db.rows && Settled(db, k.xid)
  }

  lemma {:induction false} NewestOf(db: Store, keys: set<Key>) returns (newest: Key)
    requires keys != {}
    ensures newest in keys && forall k :: k in keys ==> AtOrBefore(k, newest)
    decreases |keys|
  {
    var k :| k in keys;
    var rest := keys - {k};
    if rest == {} {
      newest := k;
    } else {
      var other := NewestOf(db, rest);
      newest := if Before(k, other) then other else k;
    }
    assert forall j :: j in keys ==> j == k || j in rest;
  }

  lemma NewestExists(db: Store) returns (newest: Key)
    requires SomethingSettled(db)
    ensures IsNewest(db, newest)
  {
    var keys := set k | k in db.rows && Settled(db, k.xid);
    var k :| k in db.rows && Settled(db, k.xid);
    assert k in keys;
    newest := NewestOf(db, keys);
  }

  lemma OnlyOneNewest(db: Store, a: Key, b: Key)
    requires IsNewest(db, a) && IsNewest(db, b)
    ensures a == b
  {
  }

  /** Whatever a look answers: the newest settled row exactly when the stream is filtered, nothing it wants is ahead and there is such a row. */
  lemma LookAnswers(db: Store, query: Filter, cursor: Cursor, answer: Option<Key>)
    requires IsLook(db, query, cursor, answer)
    ensures answer.Some? <==> query.Some? && NothingAhead(db, query, cursor) && SomethingSettled(db)
    ensures answer.Some? ==> IsNewest(db, answer.value)
  {
    hide NothingAhead, Settled;
    if SomethingSettled(db) {
      var newest := NewestExists(db);
      assert newest in db.rows && IsNewest(db, newest);
    }
  }

  /** A look that has an answer moves the stream there and reports it once nothing is left to take; one without leaves no report. */
  lemma LookReports(query: Filter, limit: nat, s: State, answer: Option<Key>, s': State)
    requires Takes(query, limit, s, Look(answer), s')
    ensures s'.taken == s.taken && s'.reader.buffer == s.reader.buffer && !s'.reader.looking
    ensures s.reader.buffer == [] ==> ProgressOf(s'.reader) == answer
    ensures answer.Some? ==> s'.reader.cursor == At(answer.value) && IsNewest(s.db, answer.value) && query.Some?
    ensures answer.None? ==> s'.reader.cursor == s.reader.cursor
  {
    hide IsNewest, NothingAhead;
  }

  /** A report stays until the next look, a fetch that finds something, or a restart. */
  lemma ReportStays(query: Filter, limit: nat, s: State, step: Step, s': State)
    requires Takes(query, limit, s, step, s') && ProgressOf(s.reader).Some?
    requires !step.Look? && !step.Reopen? && (step.Fetch? ==> step.batch == [])
    ensures ProgressOf(s'.reader) == ProgressOf(s.reader)
  {
    hide IsBatch, DbStep;
  }

  /** A fetch that finds something puts it behind what waits, in order, and takes the report back. */
  lemma FetchWithdrawsTheReport(query: Filter, limit: nat, s: State, batch: seq<Key>, s': State)
    requires Takes(query, limit, s, Fetch(batch), s') && batch != []
    ensures s'.reader.buffer == s.reader.buffer + batch && ProgressOf(s'.reader).None? && s'.reader.looked.None? && !s'.reader.looking
    ensures s'.reader.cursor == At(batch[|batch| - 1])
  {
    hide IsBatch;
  }

  /** A fetch that finds nothing is followed by a look, and by nothing else of the stream's own. */
  lemma EmptyFetchLooks(query: Filter, limit: nat, s: State, s': State)
    requires Takes(query, limit, s, Fetch([]), s')
    ensures s'.reader == s.reader.(looking := true)
    ensures exists answer :: IsLook(s'.db, query, s'.reader.cursor, answer)
    ensures forall batch, t :: !Takes(query, limit, s', Fetch(batch), t)
  {
    hide IsBatch, DbStep, NothingAhead;
    if query.Some? && NothingAhead(s'.db, query, s'.reader.cursor) && SomethingSettled(s'.db) {
      var newest := NewestExists(s'.db);
      assert IsLook(s'.db, query, s'.reader.cursor, Some(newest));
    } else {
      assert IsLook(s'.db, query, s'.reader.cursor, None) by {
        if k :| k in s'.db.rows && IsNewest(s'.db, k) {
          assert SomethingSettled(s'.db);
        }
      }
    }
  }

  /**
    A filtered stream with nothing left to take that fetches and looks while nothing it wants is
    settled ahead reports the newest settled row, if there is one: its token moves over rows it
    never wanted.
  */
  lemma QuietStretchIsReported(query: Filter, limit: nat, s: State, t: State, answer: Option<Key>, u: State)
    requires query.Some? && s.reader.buffer == [] && NothingAhead(s.db, query, s.reader.cursor) && SomethingSettled(s.db)
    requires Takes(query, limit, s, Fetch([]), t) && Takes(query, limit, t, Look(answer), u)
    ensures ProgressOf(u.reader).Some? && IsNewest(u.db, ProgressOf(u.reader).value) && u.reader.cursor == At(ProgressOf(u.reader).value)
    ensures u.taken == s.taken
  {
    EmptyFetchLooks(query, limit, s, t);
    assert t.db == s.db && u.db == t.db && t.reader.buffer == [] && t.reader.cursor == s.reader.cursor && t.taken == s.taken;
    assert IsLook(t.db, query, t.reader.cursor, answer);
    LookReports(query, limit, t, answer, u);
    hide Takes, NothingAhead, SomethingSettled, IsNewest;
    LookAnswers(t.db, query, t.reader.cursor, answer);
  }

  // ---------------------------------------------------------------------------
  // Tokens
  // ---------------------------------------------------------------------------

  /** The token of the `n`-th event is there, with all taken up to it. */
  ghost predicate TokenSaved(saved: set<Checkpoint>, taken: seq<Key>, n: nat) {
    n < |taken| ==> exists at :: at in saved && at.token == taken[n] && at.taken == taken[..n + 1]
  }

  ghost predicate AllTokens(saved: set<Checkpoint>, taken: seq<Key>) {
    forall n: nat :: TokenSaved(saved, taken, n)
  }

  ghost predicate TokensInv(s: State) {
    AllTokens(s.saved, s.taken) && forall at :: at in s.saved ==> AllTokens(s.saved, at.taken)
  }

  lemma MoreSaved(saved: set<Checkpoint>, saved': set<Checkpoint>, taken: seq<Key>)
    requires AllTokens(saved, taken) && saved <= saved'
    ensures AllTokens(saved', taken)
  {
    forall n: nat
      ensures TokenSaved(saved', taken, n)
    {
      assert TokenSaved(saved, taken, n);
    }
  }

  lemma OneMoreToken(saved: set<Checkpoint>, taken: seq<Key>, k: Key, at: Checkpoint)
    requires AllTokens(saved, taken) && at in saved && at.token == k && at.taken == taken + [k]
    ensures AllTokens(saved, taken + [k])
  {
    var more := taken + [k];
    forall n: nat
      ensures TokenSaved(saved, more, n)
    {
      assert TokenSaved(saved, taken, n);
      if n < |taken| {
        assert more[..n + 1] == taken[..n + 1];
      } else if n == |taken| {
        assert more[..n + 1] == more;
      }
    }
  }

  lemma StepKeepsTokens(query: Filter, limit: nat, s: State, step: Step, s': State)
    requires TokensInv(s) && Takes(query, limit, s, step, s')
    ensures TokensInv(s')
  {
    hide AllTokens, IsBatch, IsLook, DbStep;
    assert s.saved <= s'.saved;
    MoreSaved(s.saved, s'.saved, s.taken);
    forall at | at in s.saved
      ensures AllTokens(s'.saved, at.taken)
    {
      MoreSaved(s.saved, s'.saved, at.taken);
    }
    if step.Next? {
      var k := s.reader.buffer[0];
      var at :| at in s'.saved && at.token == k && at.taken == s.taken + [k];
      OneMoreToken(s'.saved, s.taken, k, at);
    }
  }

  lemma {:induction false} RunKeepsTokens(p: int, query: Filter, limit: nat, run: seq<State>, i: nat)
    requires Run(p, query, limit, run) && i < |run|
    ensures TokensInv(run[i])
  {
    if i > 0 {
      RunKeepsTokens(p, query, limit, run, i - 1);
      assert StepAt(query, limit, run, i);
      var step :| Takes(query, limit, run[i - 1], step, run[i]);
      hide Takes;
      StepKeepsTokens(query, limit, run[i - 1], step, run[i]);
    } else {
      assert run[0].taken == [] && run[0].saved == {};
    }
  }

  /** Every event the reader has taken, through any restarts, has left a token that stands for everything taken up to it. */
  lemma EveryEventLeavesAToken(p: int, query: Filter, limit: nat, run: seq<State>, i: nat, n: nat) returns (at: Checkpoint)
    requires Run(p, query, limit, run) && i < |run| && n < |run[i].taken|
    ensures at in run[i].saved && at.token == run[i].taken[n] && at.taken == run[i].taken[..n + 1]
  {
    RunKeepsTokens(p, query, limit, run, i);
    assert TokenSaved(run[i].saved, run[i].taken, n);
    at :| at in run[i].saved && at.token == run[i].taken[n] && at.taken == run[i].taken[..n + 1];
  }

  /** A report can be kept as a token too, and a stream reopened at any token stands there with nothing waiting. */
  lemma ReportIsAToken(query: Filter, limit: nat, s: State)
    requires ProgressOf(s.reader).Some?
    ensures exists s', at :: Takes(query, limit, s, SaveProgress, s') && at in s'.saved && at.token == ProgressOf(s.reader).value && at.taken == s.taken
    ensures forall s' :: Takes(query, limit, s, SaveProgress, s') ==>
              exists at :: at in s'.saved && at.token == ProgressOf(s.reader).value && at.taken == s.taken
  {
    hide Ascending;
    var at := Checkpoint(ProgressOf(s.reader).value, s.taken, s.floor);
    var s1 := s.(saved := s.saved + {at});
    assert Takes(query, limit, s, SaveProgress, s1) && at in s1.saved;
    forall s' | Takes(query, limit, s, SaveProgress, s')
      ensures exists a :: a in s'.saved && a.token == ProgressOf(s.reader).value && a.taken == s.taken
    {
      assert at in s'.saved;
    }
  }

  lemma ReopeningStandsAtTheToken(query: Filter, limit: nat, s: State, at: Checkpoint, s': State)
    requires Takes(query, limit, s, Reopen(at), s')
    ensures at in s.saved && s'.taken == at.taken && s'.db == s.db && s'.saved == s.saved
    ensures s'.reader.buffer == [] && s'.reader.cursor == At(at.token) && ProgressOf(s'.reader).None? && !s'.reader.looking
  {
  }
}
