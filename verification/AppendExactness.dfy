/**
  Exactly when the conditional append keeps its promise. A read with two items
  whose writers do not exclude each other can return a later event while an earlier match is still in flight; its
  marker then lies above an event it never saw, and the append's check does not look there.
*/
module AppendExactness {
  import opened Wrappers
  import opened Criteria
  import opened AppendProtocol

  /** A condition over one read, as an append without separate reads carries it. */
  ghost predicate AppendsOn(s: Db, t: nat, query: seq<Item>) {
    && t in s.txs && s.txs[t].phase.Committed?
    && exists r: ReadResult :: r.query == query && s.txs[t].condition == Some(Condition(query, [r]))
  }

  /** In every run, whatever commits on a read of the query saw every other committed match of it. */
  ghost predicate AlwaysExact(hash: Hash, query: seq<Item>) {
    forall s, t :: Reachable(hash, s) && AppendsOn(s, t, query) ==> Exact(s, t)
  }

  lemma Reach(hash: Hash, s: Db, step: Step, s': Db)
    requires Reachable(hash, s) && Takes(hash, s, step, s')
    ensures Reachable(hash, s')
  {
    hide Takes;
    var run :| Run(hash, run) && run[|run| - 1] == s;
    var longer := run + [s'];
    forall i | 0 <= i < |longer| - 1 ensures Next(hash, longer[i], longer[i + 1]) {
      if i < |run| - 1 {
        assert longer[i] == run[i] && longer[i + 1] == run[i + 1];
        assert Next(hash, run[i], run[i + 1]);
      } else {
        assert longer[i] == s && longer[i + 1] == s';
      }
    }
    assert Run(hash, longer);
  }

  ghost predicate Free(s: Db, t: nat, locks: set<Lock>) {
    forall u :: u in s.txs && u != t ==> !Clash(s.txs[u].held, locks)
  }

  /** Locks nobody else holds can be taken one by one until all are in hand. */
  lemma {:induction false} AcquireAll(hash: Hash, s: Db, t: nat)
    requires Reachable(hash, s) && t in s.txs && s.txs[t].phase.Acquiring?
    requires s.txs[t].held <= LockKeys(hash, s.txs[t]) && Free(s, t, LockKeys(hash, s.txs[t]))
    ensures Reachable(hash, With(s, t, s.txs[t].(held := LockKeys(hash, s.txs[t]))))
    decreases LockKeys(hash, s.txs[t]) - s.txs[t].held
  {
    var tx := s.txs[t];
    assert forall h :: LockKeys(hash, tx.(held := h)) == LockKeys(hash, tx);
    hide LockKeys;
    if k :| k in LockKeys(hash, tx) && k !in tx.held {
      var s' := With(s, t, tx.(held := tx.held + {k}));
      assert Takes(hash, s, Acquire(t, k), s');
      Reach(hash, s, Acquire(t, k), s');
      assert Free(s', t, LockKeys(hash, tx));
      AcquireAll(hash, s', t);
      assert With(s', t, s'.txs[t].(held := LockKeys(hash, tx))) == With(s, t, tx.(held := LockKeys(hash, tx)));
    } else {
      assert forall k :: k in LockKeys(hash, tx) ==> k in tx.held;
      assert tx.held == LockKeys(hash, tx);
      assert With(s, t, tx.(held := LockKeys(hash, tx))) == s;
    }
  }

  /** A one-event append up to its insert: locks free, check passed. */
  ghost function Writing(hash: Hash, s: Db, t: nat, e: Event, condition: Option<Condition>): Db {
    var tx := Tx([e], condition, {}, Acquiring, 0, map[]);
    With(s, t, tx.(held := LockKeys(hash, tx), phase := Inserting, done := 1, inserted := map[s.next := e])).(next := s.next + 1)
  }

  lemma CanWrite(hash: Hash, s: Db, t: nat, e: Event, condition: Option<Condition>)
    requires Reachable(hash, s) && t !in s.txs
    requires condition.Some? ==> (forall r :: r in condition.value.checks ==> r in s.sourced) && !Conflict(s.log, condition.value)
    requires Free(s, t, LockKeys(hash, Tx([e], condition, {}, Acquiring, 0, map[])))
    ensures Reachable(hash, Writing(hash, s, t, e, condition))
  {
    var tx := Tx([e], condition, {}, Acquiring, 0, map[]);
    var keys := LockKeys(hash, tx);
    assert forall h :: LockKeys(hash, tx.(held := h)) == keys;
    hide LockKeys, Conflict;
    var s1 := With(s, t, tx);
    Reach(hash, s, Begin(t, [e], condition), s1);
    AcquireAll(hash, s1, t);
    var s2 := With(s1, t, tx.(held := keys));
    var s3 := With(s2, t, tx.(held := keys, phase := Inserting));
    assert Takes(hash, s2, Pass(t), s3);
    Reach(hash, s2, Pass(t), s3);
    var s4 := Writing(hash, s, t, e, condition);
    assert s4 == With(s3, t, s3.txs[t].(done := 1, inserted := map[s.next := e])).(next := s.next + 1);
    assert map[][s.next := e] == map[s.next := e];
    assert Takes(hash, s3, Insert(t, s.next), s4);
    Reach(hash, s3, Insert(t, s.next), s4);
  }

  /** Commit and let the locks go. */
  lemma CanFinish(hash: Hash, s: Db, t: nat)
    requires Reachable(hash, s) && t in s.txs && s.txs[t].phase.Inserting? && s.txs[t].done == |s.txs[t].events| > 0
    ensures Reachable(hash, Without(s, t).(log := s.log + s.txs[t].inserted))
  {
    var s1 := With(s, t, s.txs[t].(phase := Committed)).(log := s.log + s.txs[t].inserted);
    Reach(hash, s, Commit(t), s1);
    var s2 := Without(s, t).(log := s.log + s.txs[t].inserted);
    assert Without(s1, t) == s2;
    Reach(hash, s1, Release(t), s2);
  }

  /** An event with just the item's tags and one of its types. */
  function Sample(item: Item): (e: Event)
    ensures MatchesItem(e, item)
  {
    Event("", if item.types == [] then "" else item.types[0], item.tags, "")
  }

  lemma SampleKeys(hash: Hash, item: Item)
    ensures LockKeys(hash, Tx([Sample(item)], None, {}, Acquiring, 0, map[])) == KeysOf(hash, item.tags)
  {
    assert WrittenTags([Sample(item)]) == item.tags + WrittenTags([]) == item.tags;
    assert [] + item.tags == item.tags;
  }

  lemma SampleMatches(query: seq<Item>, item: Item)
    requires item in query
    ensures MatchesQuery(Sample(item), query)
  {
    var i :| 0 <= i < |query| && query[i] == item;
  }

  /** A writer of `a` has inserted and stays open; a writer of `b` inserted above it and committed. */
  lemma LaterEventFirst(hash: Hash, a: Item, b: Item) returns (s: Db)
    requires !Clash(KeysOf(hash, a.tags), KeysOf(hash, b.tags))
    ensures Reachable(hash, s) && s.txs.Keys == {0} && s.next == 3 && s.log == map[2 := Sample(b)]
    ensures s.txs[0].phase.Inserting? && s.txs[0].done == |s.txs[0].events| == 1 && s.txs[0].inserted == map[1 := Sample(a)]
  {
    var ea, eb := Sample(a), Sample(b);
    SampleKeys(hash, a);
    SampleKeys(hash, b);
    hide LockKeys, KeysOf, Sample;
    assert Run(hash, [Init()]);
    assert Reachable(hash, Init());
    CanWrite(hash, Init(), 0, ea, None);
    var s1 := Writing(hash, Init(), 0, ea, None);
    assert s1.txs.Keys == {0} && s1.txs[0].held == KeysOf(hash, a.tags) && s1.next == 2 && s1.log == map[];
    CanWrite(hash, s1, 1, eb, None);
    var s2 := Writing(hash, s1, 1, eb, None);
    CanFinish(hash, s2, 1);
    s := Without(s2, 1).(log := s2.log + s2.txs[1].inserted);
    assert s.log == map[2 := eb];
    assert s.txs == s1.txs;
  }

  /** The read in between sees only the later event, and its marker lies above the earlier one. */
  lemma ReadInBetween(query: seq<Item>, b: Item) returns (r: ReadResult)
    requires b in query
    ensures r == SourcePlain(map[2 := Sample(b)], 3, query, 0)
    ensures r.marker == 2 && r.rows == map[2 := Sample(b)]
  {
    SampleMatches(query, b);
    hide MatchesQuery, Sample;
    var log := map[2 := Sample(b)];
    assert Select(log, query, 0) == log;
    r := SourcePlain(log, 3, query, 0);
  }

  /** The query is read in between, and the first writer then commits below the marker. */
  lemma StaleButPassing(hash: Hash, query: seq<Item>, a: Item, b: Item) returns (s: Db, r: ReadResult)
    requires a in query && b in query && !Clash(KeysOf(hash, a.tags), KeysOf(hash, b.tags))
    ensures Reachable(hash, s) && s.txs == map[] && r in s.sourced && r.query == query && s.next == 3
    ensures s.log == map[1 := Sample(a), 2 := Sample(b)]
    ensures r.marker == 2 && r.start == 0 && r.rows == map[2 := Sample(b)]
  {
    var s1 := LaterEventFirst(hash, a, b);
    r := ReadInBetween(query, b);
    hide KeysOf, Sample;
    var s2 := s1.(sourced := s1.sourced + {r});
    Reach(hash, s1, Source(query, 0), s2);
    CanFinish(hash, s2, 0);
    s := Without(s2, 0).(log := s2.log + s2.txs[0].inserted);
    assert s.log == map[1 := Sample(a), 2 := Sample(b)];
    assert s.txs == map[];
  }

  lemma UnsafeQueryBreaks(hash: Hash, query: seq<Item>, a: Item, b: Item)
    requires a in query && b in query && !Clash(KeysOf(hash, a.tags), KeysOf(hash, b.tags))
    ensures !AlwaysExact(hash, query)
  {
    var s, r := StaleButPassing(hash, query, a, b);
    SampleMatches(query, a);
    hide LockKeys, KeysOf, MatchesQuery, Sample;
    var condition := Some(Condition(query, [r]));
    var e := Event("", "", [], "");
    assert !Conflict(s.log, condition.value);
    CanWrite(hash, s, 2, e, condition);
    var s1 := Writing(hash, s, 2, e, condition);
    var s2 := With(s1, 2, s1.txs[2].(phase := Committed)).(log := s1.log + s1.txs[2].inserted);
    Reach(hash, s1, Commit(2), s2);
    assert s2.txs[2].condition == condition && s2.txs[2].inserted == map[3 := e];
    assert AppendsOn(s2, 2, query);
    assert s2.log[1] == Sample(a) && 1 in Select(s2.log, query, 0);
    assert 1 in Others(Select(s2.log, query, 0), s2.txs[2].inserted) && 1 !in r.rows;
    assert Reads(s2, 2, r);
    assert !Exact(s2, 2);
  }

  lemma SafeQueryHolds(hash: Hash, query: seq<Item>)
    requires query != [] && Safe(hash, query)
    ensures AlwaysExact(hash, query)
  {
    forall s, t | Reachable(hash, s) && AppendsOn(s, t, query) ensures Exact(s, t) {
      var condition := s.txs[t].condition.value;
      assert forall r :: r in condition.checks ==> r.query == query;
      assert Covers(condition) && SafeReads(hash, condition);
      CommittedAppendSawEverything(hash, s, t);
    }
  }

  /**
    For every hash and every query: the optimistic-concurrency promise holds in all runs if
    and only if the locks of every two items of the query exclude each other.
  */
  lemma ExactlyTheSafeQueries(hash: Hash, query: seq<Item>)
    requires query != []
    ensures AlwaysExact(hash, query) <==> Safe(hash, query)
  {
    hide AlwaysExact;
    if Safe(hash, query) {
      SafeQueryHolds(hash, query);
    } else {
      var a, b :| a in query && b in query && !Clash(KeysOf(hash, a.tags), KeysOf(hash, b.tags));
      UnsafeQueryBreaks(hash, query, a, b);
    }
  }
}
