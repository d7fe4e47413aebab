/**
  What the log holds, told by the calls that were made: every committed append put exactly
  its events there, in order, and nothing else put anything. And what a call locks and a read
  returns, told without the protocol's own terms.
*/
module AppendHistory {
  import opened Wrappers
  import opened Criteria
  import opened AppendProtocol
  import Locks = AdvisoryLocks

  // ---------------------------------------------------------------------------
  // Where events are placed
  // ---------------------------------------------------------------------------

  ghost predicate Increasing(ps: seq<int>) {
    forall i, j :: 0 <= i < j < |ps| ==> ps[i] < ps[j]
  }

  /** The rows are the events one by one, at these positions and no others. */
  ghost predicate PlacedAt(rows: Rows, events: seq<Event>, ps: seq<int>) {
    && Increasing(ps) && |ps| == |events|
    && (forall i :: 0 <= i < |ps| ==> ps[i] in rows && rows[ps[i]] == events[i])
    && (forall p :: p in rows ==> p in ps)
  }

  ghost predicate InOrder(tx: Tx) {
    && tx.done <= |tx.events| && (tx.phase.Committed? ==> tx.done == |tx.events|)
    && exists ps :: PlacedAt(tx.inserted, tx.events[..tx.done], ps)
  }

  ghost predicate AllInOrder(s: Db) {
    forall t :: t in s.txs ==> InOrder(s.txs[t])
  }

  lemma NothingPlaced(tx: Tx)
    requires tx.done == 0 && tx.inserted == map[] && tx.phase.Acquiring?
    ensures InOrder(tx)
  {
    assert tx.events[..0] == [];
    assert PlacedAt(tx.inserted, tx.events[..tx.done], []);
  }

  lemma PlacedBehind(rows: Rows, events: seq<Event>, ps: seq<int>, position: int, e: Event)
    requires PlacedAt(rows, events, ps) && forall p :: p in rows ==> p < position
    ensures PlacedAt(rows[position := e], events + [e], ps + [position])
  {
    var more, es, qs := rows[position := e], events + [e], ps + [position];
    forall i | 0 <= i < |qs|
      ensures qs[i] in more && more[qs[i]] == es[i]
    {
      if i < |ps| {
        assert qs[i] == ps[i] && ps[i] in rows;
      }
    }
    forall i, j | 0 <= i < j < |qs|
      ensures qs[i] < qs[j]
    {
      assert ps[i] in rows;
    }
    assert position in qs && forall p :: p in ps ==> p in qs;
  }

  lemma OneMorePlaced(tx: Tx, position: int, tx': Tx)
    requires InOrder(tx) && tx.phase.Inserting? && tx.done < |tx.events| && forall p :: p in tx.inserted ==> p < position
    requires tx' == tx.(done := tx.done + 1, inserted := tx.inserted[position := tx.events[tx.done]])
    ensures InOrder(tx')
  {
    hide PlacedAt;
    var n := tx.done;
    var ps :| PlacedAt(tx.inserted, tx.events[..n], ps);
    PlacedBehind(tx.inserted, tx.events[..n], ps, position, tx.events[n]);
    assert tx.events[..n + 1] == tx.events[..n] + [tx.events[n]];
  }

  lemma StepKeepsOrder(hash: Hash, s: Db, step: Step, s': Db)
    requires Below(s) && AllInOrder(s) && Takes(hash, s, step, s')
    ensures AllInOrder(s')
  {
    hide InOrder, LockKeys, Conflict, SourcePlain;
    forall u | u in s'.txs
      ensures InOrder(s'.txs[u])
    {
      if u in s.txs {
        assert InOrder(s.txs[u]);
        if step.Insert? && u == step.t {
          OneMorePlaced(s.txs[u], step.position, s'.txs[u]);
        } else {
          PlacedAsBefore(s.txs[u], s'.txs[u]);
        }
      } else {
        NothingPlaced(s'.txs[u]);
      }
    }
  }

  lemma PlacedAsBefore(tx: Tx, tx': Tx)
    requires InOrder(tx) && tx'.events == tx.events && tx'.done == tx.done && tx'.inserted == tx.inserted
    requires tx'.phase.Committed? ==> tx.phase.Committed? || tx.done == |tx.events|
    ensures InOrder(tx')
  {
  }

  // ---------------------------------------------------------------------------
  // Runs with their steps
  // ---------------------------------------------------------------------------

  ghost predicate StepAt(hash: Hash, run: seq<Db>, steps: seq<Step>, i: nat) {
    i < |steps| && i + 1 < |run| ==> Takes(hash, run[i], steps[i], run[i + 1])
  }

  ghost predicate RunsBy(hash: Hash, run: seq<Db>, steps: seq<Step>) {
    |run| == |steps| + 1 && run[0] == Init() && forall i: nat :: StepAt(hash, run, steps, i)
  }

  lemma {:induction false} RunIsSound(hash: Hash, run: seq<Db>, steps: seq<Step>, n: nat)
    requires RunsBy(hash, run, steps) && n < |run|
    ensures Inv(hash, run[n]) && AllInOrder(run[n])
  {
    if n > 0 {
      RunIsSound(hash, run, steps, n - 1);
      assert StepAt(hash, run, steps, n - 1);
      hide AllInOrder, Takes;
      StepKeepsInv(hash, run[n - 1], steps[n - 1], run[n]);
      StepKeepsOrder(hash, run[n - 1], steps[n - 1], run[n]);
    } else {
      hide Safe, MatchesQuery;
    }
  }

  /** An open transaction is what its call asked for. */
  ghost predicate BegunBy(steps: seq<Step>, n: nat, i: nat, t: nat, tx: Tx) {
    i < n <= |steps| && steps[i] == Begin(t, tx.events, tx.condition)
  }

  lemma SameCall(hash: Hash, s: Db, step: Step, s': Db, t: nat)
    requires Takes(hash, s, step, s') && t in s'.txs
    ensures t in s.txs ==> s'.txs[t].events == s.txs[t].events && s'.txs[t].condition == s.txs[t].condition
    ensures t !in s.txs ==> step == Begin(t, s'.txs[t].events, s'.txs[t].condition)
  {
    hide LockKeys, Conflict, SourcePlain;
  }

  lemma {:induction false} TransactionIsItsCall(hash: Hash, run: seq<Db>, steps: seq<Step>, n: nat, t: nat) returns (i: nat)
    requires RunsBy(hash, run, steps) && n < |run| && t in run[n].txs
    ensures BegunBy(steps, n, i, t, run[n].txs[t])
  {
    assert n > 0;
    assert StepAt(hash, run, steps, n - 1);
    hide Takes;
    SameCall(hash, run[n - 1], steps[n - 1], run[n], t);
    if t in run[n - 1].txs {
      i := TransactionIsItsCall(hash, run, steps, n - 1, t);
    } else {
      i := n - 1;
    }
  }

  // ---------------------------------------------------------------------------
  // What a commit stores
  // ---------------------------------------------------------------------------

  /** These are the rows that the commit added. */
  ghost predicate Adds(log: Rows, rows: Rows, log': Rows) {
    (forall p :: p in rows ==> p !in log) && log' == log + rows
  }

  lemma CommitAdds(hash: Hash, s: Db, t: nat, s': Db)
    requires Positions(s) && Takes(hash, s, Commit(t), s')
    ensures t in s.txs && s.txs[t].phase.Inserting? && s.txs[t].done == |s.txs[t].events| > 0 && Adds(s.log, s.txs[t].inserted, s'.log)
  {
    assert forall p :: p in s.txs[t].inserted ==> InFlight(s, t, p);
  }

  /**
    A commit adds to the log exactly the events its call asked for, one row each, in order,
    at new positions, and leaves every other row alone.
  */
  lemma CommitStoresTheCall(hash: Hash, run: seq<Db>, steps: seq<Step>, n: nat) returns (i: nat, ps: seq<int>)
    requires RunsBy(hash, run, steps) && n < |steps| && steps[n].Commit?
    ensures i < n && steps[i].Begin? && steps[i].t == steps[n].t
    ensures Increasing(ps) && |ps| == |steps[i].events| > 0
    ensures forall k :: 0 <= k < |ps| ==> ps[k] !in run[n].log && ps[k] in run[n + 1].log && run[n + 1].log[ps[k]] == steps[i].events[k]
    ensures forall p :: p in run[n + 1].log ==> p in run[n].log || p in ps
    ensures forall p :: p in run[n].log ==> p in run[n + 1].log && run[n + 1].log[p] == run[n].log[p]
  {
    var t := steps[n].t;
    RunIsSound(hash, run, steps, n);
    assert StepAt(hash, run, steps, n);
    CommitAdds(hash, run[n], t, run[n + 1]);
    hide Takes, Inv;
    i := TransactionIsItsCall(hash, run, steps, n, t);
    var tx := run[n].txs[t];
    assert InOrder(tx) && tx.events[..tx.done] == tx.events;
    ps :| PlacedAt(tx.inserted, tx.events[..tx.done], ps);
  }

  /** Nothing but a commit changes the log. */
  lemma OnlyCommitsWrite(hash: Hash, s: Db, step: Step, s': Db)
    requires Takes(hash, s, step, s') && !step.Commit?
    ensures s'.log == s.log
  {
    hide LockKeys, Conflict, SourcePlain;
  }

  /** The commit at step `j` stored this event. */
  ghost predicate StoredBy(run: seq<Db>, steps: seq<Step>, j: nat, p: int, e: Event) {
    && j < |steps| && j < |run| && steps[j].Commit? && steps[j].t in run[j].txs
    && p in run[j].txs[steps[j].t].inserted && run[j].txs[steps[j].t].inserted[p] == e
  }

  lemma {:induction false} RowWasStored(hash: Hash, run: seq<Db>, steps: seq<Step>, n: nat, p: int) returns (j: nat)
    requires RunsBy(hash, run, steps) && n < |run| && p in run[n].log
    ensures j < n && StoredBy(run, steps, j, p, run[n].log[p])
  {
    assert n > 0;
    RunIsSound(hash, run, steps, n - 1);
    assert StepAt(hash, run, steps, n - 1);
    if steps[n - 1].Commit? {
      CommitAdds(hash, run[n - 1], steps[n - 1].t, run[n]);
      if p in run[n - 1].log {
        j := RowWasStored(hash, run, steps, n - 1, p);
      } else {
        j := n - 1;
      }
    } else {
      OnlyCommitsWrite(hash, run[n - 1], steps[n - 1], run[n]);
      j := RowWasStored(hash, run, steps, n - 1, p);
    }
  }

  lemma {:induction false} StoredRowStays(hash: Hash, run: seq<Db>, steps: seq<Step>, j: nat, n: nat, p: int, e: Event)
    requires RunsBy(hash, run, steps) && j < n < |run| && StoredBy(run, steps, j, p, e)
    ensures p in run[n].log && run[n].log[p] == e
  {
    RunIsSound(hash, run, steps, n - 1);
    assert StepAt(hash, run, steps, n - 1);
    if j < n - 1 {
      StoredRowStays(hash, run, steps, j, n - 1, p, e);
    }
    if steps[n - 1].Commit? {
      CommitAdds(hash, run[n - 1], steps[n - 1].t, run[n]);
    } else {
      OnlyCommitsWrite(hash, run[n - 1], steps[n - 1], run[n]);
    }
  }

  /** At every point of every run the log is what the commits so far have stored, and nothing besides. */
  lemma LogIsWhatWasCommitted(hash: Hash, run: seq<Db>, steps: seq<Step>, n: nat, p: int, e: Event)
    requires RunsBy(hash, run, steps) && n < |run|
    ensures (p in run[n].log && run[n].log[p] == e) <==> exists j: nat :: j < n && StoredBy(run, steps, j, p, e)
  {
    hide RunsBy, StoredBy;
    if p in run[n].log && run[n].log[p] == e {
      var j := RowWasStored(hash, run, steps, n, p);
    }
    if j: nat :| j < n && StoredBy(run, steps, j, p, e) {
      StoredRowStays(hash, run, steps, j, n, p, e);
    }
  }

  // ---------------------------------------------------------------------------
  // What a read returns, and what a check decides
  // ---------------------------------------------------------------------------

  /** A read returns every committed match from its start on, and the greatest of their positions as its marker. */
  lemma ReadReturnsEveryMatch(hash: Hash, s: Db, query: seq<Item>, start: int, s': Db) returns (r: ReadResult)
    requires Reachable(hash, s) && Takes(hash, s, Source(query, start), s')
    ensures s'.sourced == s.sourced + {r} && r.query == query && r.start == start
    ensures forall p :: p in r.rows <==> p in s.log && p >= start && MatchesQuery(s.log[p], query)
    ensures forall p :: p in r.rows ==> r.rows[p] == s.log[p] && p <= r.marker
    ensures if r.rows == map[] then r.marker == start - 1 else r.marker in r.rows
  {
    ReachableInv(hash, s);
    hide MatchesQuery, Locking, Prefix, Reading, Checked;
    r := SourcePlain(s.log, s.next, query, start);
    assert forall p :: p in r.rows ==> start <= p < s.next;
    if r.rows != map[] {
      var p :| p in r.rows;
      assert p <= r.marker;
    }
  }

  /** With its locks in hand a conditional append can be refused if and only if some read is stale, and can go on if and only if none is. */
  lemma CheckDecides(hash: Hash, s: Db, t: nat)
    requires Reachable(hash, s) && ReadyToCheck(hash, s, t)
    requires s.txs[t].condition.Some? && SafeReads(hash, s.txs[t].condition.value)
    ensures (exists s' :: Takes(hash, s, Refuse(t), s')) <==> exists r :: Reads(s, t, r) && Stale(s, r)
    ensures (exists s' :: Takes(hash, s, Pass(t), s')) <==> !exists r :: Reads(s, t, r) && Stale(s, r)
  {
    RefusesExactlyWhenStale(hash, s, t);
    hide Reads, Stale, SafeReads, ReadyToCheck, Refuses;
    if Refuses(s, t) {
      assert Takes(hash, s, Refuse(t), Without(s, t));
    } else {
      assert Takes(hash, s, Pass(t), With(s, t, s.txs[t].(phase := Inserting)));
    }
  }

  /** A refused or aborted append leaves no row and no lock behind. */
  lemma RefusedLeavesNothing(hash: Hash, s: Db, step: Step, s': Db)
    requires Takes(hash, s, step, s') && (step.Refuse? || step.Abort?)
    ensures s'.log == s.log && step.t in s.txs && step.t !in s'.txs && !s.txs[step.t].phase.Committed?
    ensures forall u :: u in s'.txs <==> u in s.txs && u != step.t
    ensures forall u :: u in s'.txs ==> s'.txs[u] == s.txs[u]
  {
    hide Conflict, LockKeys;
  }

  // ---------------------------------------------------------------------------
  // What is locked
  // ---------------------------------------------------------------------------

  function HashOf(keys: Locks.Keys): Hash {
    Hash(t => keys.leaf("", t), keys.intent(""), keys.global)
  }

  function TargetsOf(tags: seq<Tag>): seq<Locks.Target> {
    seq(|tags|, i requires 0 <= i < |tags| => Locks.Target("", EncodeTag(tags[i])))
  }

  function LockOf(r: Locks.Request): Lock {
    Lock(r.key, r.mode.Shared?)
  }

  /** The locks of an append are those the write plan asks for. */
  lemma LocksAreTheWritePlan(keys: Locks.Keys, tags: seq<Tag>, lock: Lock)
    ensures lock in KeysOf(HashOf(keys), tags) <==> exists r :: r in Locks.WritePlan(keys, TargetsOf(tags)) && LockOf(r) == lock
  {
    var targets := TargetsOf(tags);
    var plan := Locks.WritePlan(keys, targets);
    hide EncodeTag, Locks.WritePlan;
    var want := Locks.Request(lock.key, if lock.shared then Locks.Shared else Locks.Exclusive);
    Locks.WritePlanAsks(keys, targets, want);
    assert LockOf(want) == lock;
    assert forall r :: LockOf(r) == lock ==> r == want;
    if lock in KeysOf(HashOf(keys), tags) && tags != [] {
      assert targets[0].kind == "";
      if t :| t in tags && lock == Lock(keys.leaf("", EncodeTag(t)), false) {
        var i :| 0 <= i < |tags| && tags[i] == t;
        assert targets[i] == Locks.Target("", EncodeTag(t)) && targets[i] in targets;
      }
    }
    if want in plan && tags != [] {
      assert forall x :: x in targets ==> exists i :: 0 <= i < |tags| && x == Locks.Target("", EncodeTag(tags[i]));
    }
  }

  /** No leaf key is an intent key. */
  ghost predicate LeavesApart(hash: Hash) {
    forall t :: hash.leaf(t) != hash.typeIntent && hash.leaf(t) != hash.globalIntent
  }

  /** With leaf keys apart from the intents, a query is safe if and only if every two of its items have a leaf key in common. */
  lemma SafeMeansASharedLeaf(hash: Hash, query: seq<Item>)
    requires LeavesApart(hash)
    ensures Safe(hash, query) <==>
            forall a, b :: a in query && b in query ==>
              exists t, u :: t in a.tags && u in b.tags && hash.leaf(EncodeTag(t)) == hash.leaf(EncodeTag(u))
  {
    hide EncodeTag;
    forall a: Item, b: Item
      ensures Clash(KeysOf(hash, a.tags), KeysOf(hash, b.tags)) <==>
              exists t, u :: t in a.tags && u in b.tags && hash.leaf(EncodeTag(t)) == hash.leaf(EncodeTag(u))
    {
      ClashMeansASharedLeaf(hash, a.tags, b.tags);
    }
    hide KeysOf, Clash;
  }

  lemma ClashMeansASharedLeaf(hash: Hash, a: seq<Tag>, b: seq<Tag>)
    requires LeavesApart(hash)
    ensures Clash(KeysOf(hash, a), KeysOf(hash, b)) <==>
            exists t, u :: t in a && u in b && hash.leaf(EncodeTag(t)) == hash.leaf(EncodeTag(u))
  {
    hide EncodeTag;
    if x, y :| x in KeysOf(hash, a) && y in KeysOf(hash, b) && Opposed(x, y) {
      assert !x.shared || !y.shared;
      assert !x.shared && !y.shared;
      var t :| t in a && x == Lock(hash.leaf(EncodeTag(t)), false);
      var u :| u in b && y == Lock(hash.leaf(EncodeTag(u)), false);
    }
    if t, u :| t in a && u in b && hash.leaf(EncodeTag(t)) == hash.leaf(EncodeTag(u)) {
      var x, y := Lock(hash.leaf(EncodeTag(t)), false), Lock(hash.leaf(EncodeTag(u)), false);
      assert x in KeysOf(hash, a) && y in KeysOf(hash, b) && Opposed(x, y);
    }
  }
}
