/**
  The fused read: a cached fold and the events after it, in one statement. The cache may hold
  the result of any earlier load of the same query, an older one overwriting a newer one
  included; a load must still agree with folding the whole history.
*/
module FusedSnapshot {
  import opened Wrappers
  import opened Criteria
  import opened AppendProtocol
  import opened AppendExactness

  /** One cached fold: the state and the position folded into it. */
  datatype Snapshot<S> = Snapshot(state: S, position: int)

  datatype Fold<!S> = Fold(initial: S, evolve: (S, Event) -> S)

  /** What the fused statement returns. */
  datatype Fused<S> = Fused(snapshot: Option<Snapshot<S>>, startAt: int, rows: Rows, marker: int)

  /** What a load hands back: the state, and the marker an append is conditioned on. */
  datatype Load<S> = Load(key: string, state: S, marker: int)

  datatype World<S> = World(db: Db, snapshots: map<string, Snapshot<S>>, loads: seq<Load<S>>)

  /** The rows at positions lo <= p < hi, folded in position order. */
  ghost function FoldRows<S>(fold: Fold<S>, state: S, rows: Rows, lo: int, hi: int): S
    decreases hi - lo
  {
    if lo >= hi then state
    else FoldRows(fold, if lo in rows then fold.evolve(state, rows[lo]) else state, rows, lo + 1, hi)
  }

  /** Full replay: every committed match folded from the initial state. */
  ghost function Replay<S>(fold: Fold<S>, db: Db, query: seq<Item>): S {
    FoldRows(fold, fold.initial, Select(db.log, query, 0), 0, db.next)
  }

  /** Snapshot, bound, events and marker, as the one statement computes them. */
  function SourceFused<S>(w: World<S>, query: seq<Item>, key: string, start: int): Fused<S> {
    var snapshot := if key in w.snapshots then Some(w.snapshots[key]) else None;
    var after := if snapshot.Some? then snapshot.value.position + 1 else 0;
    var startAt := if after > start then after else start;
    var rows := Select(w.db.log, query, startAt);
    Fused(snapshot, startAt, rows, LastPosition(rows, startAt, w.db.next))
  }

  /** The fold over a fused result: from the snapshot's state if one came back. */
  ghost function Loaded<S>(fold: Fold<S>, w: World<S>, query: seq<Item>, key: string): Load<S> {
    var f := SourceFused(w, query, key, 0);
    var from := if f.snapshot.Some? then f.snapshot.value.state else fold.initial;
    Load(key, FoldRows(fold, from, f.rows, f.startAt, w.db.next), f.marker)
  }

  /** Which query is folded under which key, and how. */
  type Keyed = string -> seq<Item>
  type Folds<!S> = string -> Fold<S>

  ghost predicate Takes<S(!new)>(hash: Hash, keyed: Keyed, folds: Folds<S>, w: World<S>, w': World<S>) {
    || Appends(hash, w, w')
    || (exists key :: w' == AfterLoad(keyed, folds, w, key))
    || (exists load :: load in w.loads && w' == w.(snapshots := w.snapshots[load.key := Snapshot(load.state, load.marker)]))
  }

  /** Any step of the append protocol. */
  ghost predicate Appends<S>(hash: Hash, w: World<S>, w': World<S>) {
    Next(hash, w.db, w'.db) && w'.snapshots == w.snapshots && w'.loads == w.loads
  }

  /** A load, recorded as the read of its query that it stands for. */
  ghost function AfterLoad<S>(keyed: Keyed, folds: Folds<S>, w: World<S>, key: string): World<S> {
    w.(db := w.db.(sourced := w.db.sourced + {SourcePlain(w.db.log, w.db.next, keyed(key), 0)}),
       loads := w.loads + [Loaded(folds(key), w, keyed(key), key)])
  }

  ghost function Start<S>(): World<S> {
    World(Init(), map[], [])
  }

  ghost predicate WorldRun<S(!new)>(hash: Hash, keyed: Keyed, folds: Folds<S>, run: seq<World<S>>) {
    |run| > 0 && run[0] == Start() && forall i :: 0 <= i < |run| - 1 ==> Takes(hash, keyed, folds, run[i], run[i + 1])
  }

  ghost predicate Reached<S(!new)>(hash: Hash, keyed: Keyed, folds: Folds<S>, w: World<S>) {
    exists run :: WorldRun(hash, keyed, folds, run) && run[|run| - 1] == w
  }

  // ---------------------------------------------------------------------------
  // Folding
  // ---------------------------------------------------------------------------

  lemma {:induction false} FoldsAgree<S>(fold: Fold<S>, state: S, a: Rows, b: Rows, lo: int, hi: int)
    requires forall p :: lo <= p < hi ==> (p in a <==> p in b) && (p in a ==> a[p] == b[p])
    ensures FoldRows(fold, state, a, lo, hi) == FoldRows(fold, state, b, lo, hi)
    decreases hi - lo
  {
    if lo < hi {
      FoldsAgree(fold, if lo in a then fold.evolve(state, a[lo]) else state, a, b, lo + 1, hi);
    }
  }

  lemma {:induction false} FoldSplits<S>(fold: Fold<S>, state: S, rows: Rows, lo: int, mid: int, hi: int)
    requires lo <= mid <= hi
    ensures FoldRows(fold, state, rows, lo, hi) == FoldRows(fold, FoldRows(fold, state, rows, lo, mid), rows, mid, hi)
    decreases mid - lo
  {
    if lo < mid {
      FoldSplits(fold, if lo in rows then fold.evolve(state, rows[lo]) else state, rows, lo + 1, mid, hi);
    }
  }

  // ---------------------------------------------------------------------------
  // Every cached fold is the fold of a read that was made
  // ---------------------------------------------------------------------------

  /** The read whose rows the state folds. */
  ghost predicate FoldOf<S>(fold: Fold<S>, query: seq<Item>, state: S, position: int, r: ReadResult) {
    r.query == query && r.start == 0 && r.marker == position && state == FoldRows(fold, fold.initial, r.rows, 0, position + 1)
  }

  ghost predicate Backed<S>(fold: Fold<S>, db: Db, query: seq<Item>, state: S, position: int) {
    exists r :: r in db.sourced && FoldOf(fold, query, state, position, r)
  }

  ghost predicate Inv<S(!new)>(hash: Hash, keyed: Keyed, folds: Folds<S>, w: World<S>) {
    && Reachable(hash, w.db)
    && (forall load :: load in w.loads && Safe(hash, keyed(load.key)) ==>
          Backed(folds(load.key), w.db, keyed(load.key), load.state, load.marker))
    && (forall key :: key in w.snapshots && Safe(hash, keyed(key)) ==>
          Backed(folds(key), w.db, keyed(key), w.snapshots[key].state, w.snapshots[key].position))
  }

  lemma LastPositionIs(rows: Rows, lo: int, hi: int, m: int)
    requires lo <= m < hi && m in rows && forall p :: p in rows ==> p <= m
    ensures LastPosition(rows, lo, hi) == m
  {
  }

  lemma LastPositionNone(rows: Rows, lo: int, hi: int)
    requires rows == map[]
    ensures LastPosition(rows, lo, hi) == lo - 1
  {
  }

  /** The rows a plain read would return, cut at a backed snapshot's position. */
  lemma PlainReadSplits(hash: Hash, db: Db, query: seq<Item>, r: ReadResult)
    requires Reachable(hash, db) && r in db.sourced && r.query == query && r.start == 0 && Safe(hash, query)
    ensures -1 <= r.marker < db.next && (0 <= r.marker ==> r.marker in r.rows)
    ensures var all := Select(db.log, query, 0);
            && (forall p :: 0 <= p < r.marker + 1 ==> (p in all <==> p in r.rows) && (p in all ==> all[p] == r.rows[p]))
            && (forall p :: p in all ==> 0 <= p < db.next)
            && (forall p :: r.marker < p ==> (p in all <==> p in Select(db.log, query, r.marker + 1)))
  {
    ReachableInv(hash, db);
    MarkerStaysTrue(hash, db, r);
    hide MatchesQuery, Safe, Complete, AppendProtocol.Checked, Locking, Prefix, Visible, Distinct;
    assert WellRead(db, r);
  }

  /**
    A load agrees with full replay, and its marker is the plain read's: with a snapshot backed by
    any earlier read, however old, nothing is folded twice and nothing is left out.
  */
  lemma LoadIsReplay<S(!new)>(hash: Hash, keyed: Keyed, folds: Folds<S>, w: World<S>, key: string)
    requires Inv(hash, keyed, folds, w) && Safe(hash, keyed(key))
    ensures Loaded(folds(key), w, keyed(key), key) ==
            Load(key, Replay(folds(key), w.db, keyed(key)), SourcePlain(w.db.log, w.db.next, keyed(key), 0).marker)
  {
    hide Safe, FoldRows, LastPosition, Reachable, Select;
    var query, fold := keyed(key), folds(key);
    if key in w.snapshots {
      var snap := w.snapshots[key];
      assert Backed(fold, w.db, query, snap.state, snap.position);
      var r :| r in w.db.sourced && FoldOf(fold, query, snap.state, snap.position, r);
      hide Safe, Inv, Backed;
      PlainReadSplits(hash, w.db, query, r);
      SnapshotPlusRest(fold, w.db.log, w.db.next, query, snap, r);
    }
  }

  /** Folding on from the snapshot is folding everything, because what it covers never changes. */
  lemma SnapshotPlusRest<S>(fold: Fold<S>, log: Rows, next: int, query: seq<Item>, snap: Snapshot<S>, r: ReadResult)
    requires FoldOf(fold, query, snap.state, snap.position, r)
    requires -1 <= r.marker < next && (0 <= r.marker ==> r.marker in r.rows)
    requires var all := Select(log, query, 0);
            && (forall p :: 0 <= p < r.marker + 1 ==> (p in all <==> p in r.rows) && (p in all ==> all[p] == r.rows[p]))
            && (forall p :: p in all ==> 0 <= p < next)
            && (forall p :: r.marker < p ==> (p in all <==> p in Select(log, query, r.marker + 1)))
    ensures var rows := Select(log, query, snap.position + 1);
            && FoldRows(fold, snap.state, rows, snap.position + 1, next) == FoldRows(fold, fold.initial, Select(log, query, 0), 0, next)
            && LastPosition(rows, snap.position + 1, next) == LastPosition(Select(log, query, 0), 0, next)
  {
    var all, mid := Select(log, query, 0), snap.position + 1;
    var rows := Select(log, query, mid);
    SelectNarrows(log, query, mid);
    hide Select;
    MarkersAgree(all, rows, snap.position, next);
    FoldSplits(fold, fold.initial, all, 0, mid, next);
    FoldsAgree(fold, fold.initial, all, r.rows, 0, mid);
    FoldsAgree(fold, snap.state, all, rows, mid, next);
  }

  lemma SelectNarrows(log: Rows, query: seq<Item>, mid: int)
    requires 0 <= mid
    ensures forall p :: p in Select(log, query, mid) ==>
              mid <= p && p in Select(log, query, 0) && Select(log, query, mid)[p] == Select(log, query, 0)[p]
  {
  }

  lemma MarkersAgree(all: Rows, rows: Rows, position: int, next: int)
    requires -1 <= position < next && (0 <= position ==> position in all)
    requires forall p :: p in all ==> 0 <= p < next
    requires forall p :: position < p ==> (p in all <==> p in rows)
    requires forall p :: p in rows ==> position < p
    ensures LastPosition(all, 0, next) == LastPosition(rows, position + 1, next)
  {
    var m := LastPosition(rows, position + 1, next);
    if position < m {
      assert m in all;
      LastPositionIs(all, 0, next, m);
    } else if 0 <= position {
      LastPositionIs(all, 0, next, position);
    }
  }

  lemma AppendKeepsInv<S(!new)>(hash: Hash, keyed: Keyed, folds: Folds<S>, w: World<S>, w': World<S>)
    requires Inv(hash, keyed, folds, w) && Appends(hash, w, w')
    ensures Inv(hash, keyed, folds, w')
  {
    hide Safe;
    var step :| AppendProtocol.Takes(hash, w.db, step, w'.db);
    Reach(hash, w.db, step, w'.db);
    assert w.db.sourced <= w'.db.sourced;
    hide AppendProtocol.Takes, Reachable, Appends;
    BackingStays<S>(w.db, w'.db);
    hide Backed;
  }

  lemma LoadKeepsInv<S(!new)>(hash: Hash, keyed: Keyed, folds: Folds<S>, w: World<S>, key: string)
    requires Inv(hash, keyed, folds, w)
    ensures Inv(hash, keyed, folds, AfterLoad(keyed, folds, w, key))
  {
    hide Safe, Loaded, SourcePlain;
    var w' := AfterLoad(keyed, folds, w, key);
    var query := keyed(key);
    var r := SourcePlain(w.db.log, w.db.next, query, 0);
    Reach(hash, w.db, Source(query, 0), w'.db);
    hide Reachable;
    BackingStays<S>(w.db, w'.db);
    LoadedKey(folds(key), w, query, key);
    if Safe(hash, query) {
      LoadIsReplay(hash, keyed, folds, w, key);
      PlainReadBacks(hash, folds(key), w'.db, query, r);
    }
    hide Backed;
  }

  lemma StepKeepsInv<S(!new)>(hash: Hash, keyed: Keyed, folds: Folds<S>, w: World<S>, w': World<S>)
    requires Inv(hash, keyed, folds, w) && Takes(hash, keyed, folds, w, w')
    ensures Inv(hash, keyed, folds, w')
  {
    hide Safe, Loaded, Backed, Reachable, Appends, AfterLoad;
    if Appends(hash, w, w') {
      AppendKeepsInv(hash, keyed, folds, w, w');
    } else if key :| w' == AfterLoad(keyed, folds, w, key) {
      LoadKeepsInv(hash, keyed, folds, w, key);
    } else {
    }
  }

  lemma BackingStays<S(!new)>(db: Db, db': Db)
    requires db.sourced <= db'.sourced
    ensures forall fold: Fold<S>, query, state: S, position :: Backed(fold, db, query, state, position) ==> Backed(fold, db', query, state, position)
  {
  }

  lemma LoadedKey<S>(fold: Fold<S>, w: World<S>, query: seq<Item>, key: string)
    ensures Loaded(fold, w, query, key).key == key
  {
  }

  lemma PlainReadBacks<S(!new)>(hash: Hash, fold: Fold<S>, db: Db, query: seq<Item>, r: ReadResult)
    requires Reachable(hash, db) && r in db.sourced && r == SourcePlain(db.log, db.next, query, 0)
    ensures Backed(fold, db, query, Replay(fold, db, query), r.marker)
  {
    ReachableInv(hash, db);
    hide Safe, MatchesQuery, Reading, AppendProtocol.Checked, Locking, Prefix, Visible, Distinct;
    FoldSplits(fold, fold.initial, r.rows, 0, r.marker + 1, db.next);
    NothingToFold(fold, FoldRows(fold, fold.initial, r.rows, 0, r.marker + 1), r.rows, r.marker + 1, db.next);
    assert FoldOf(fold, query, Replay(fold, db, query), r.marker, r);
  }

  lemma {:induction false} NothingToFold<S>(fold: Fold<S>, state: S, rows: Rows, lo: int, hi: int)
    requires forall p :: lo <= p < hi ==> p !in rows
    ensures FoldRows(fold, state, rows, lo, hi) == state
    decreases hi - lo
  {
    if lo < hi {
      NothingToFold(fold, state, rows, lo + 1, hi);
    }
  }

  lemma {:induction false} RunKeepsInv<S(!new)>(hash: Hash, keyed: Keyed, folds: Folds<S>, run: seq<World<S>>)
    requires WorldRun(hash, keyed, folds, run)
    ensures Inv(hash, keyed, folds, run[|run| - 1])
  {
    hide Safe;
    if |run| == 1 {
      assert Run(hash, [Init()]);
    } else {
      var n := |run| - 1;
      assert WorldRun(hash, keyed, folds, run[..n]);
      RunKeepsInv(hash, keyed, folds, run[..n]);
      StepKeepsInv(hash, keyed, folds, run[n - 1], run[n]);
    }
  }

  /**
    In every world reached by any interleaving of appends, loads and snapshot writes, a load
    through the cache returns the state of a full replay and the marker of a plain read — so an
    append conditioned on it is checked exactly as if the history had been read in full.
  */
  lemma FusedReadRefinesReplay<S(!new)>(hash: Hash, keyed: Keyed, folds: Folds<S>, w: World<S>, key: string)
    requires Reached(hash, keyed, folds, w) && Safe(hash, keyed(key))
    ensures Loaded(folds(key), w, keyed(key), key).state == Replay(folds(key), w.db, keyed(key))
    ensures Loaded(folds(key), w, keyed(key), key).marker == SourcePlain(w.db.log, w.db.next, keyed(key), 0).marker
  {
    var run :| WorldRun(hash, keyed, folds, run) && run[|run| - 1] == w;
    RunKeepsInv(hash, keyed, folds, run);
    LoadIsReplay(hash, keyed, folds, w, key);
  }

  ghost predicate NoneBelow(rows: Rows, start: int) {
    forall p :: p in rows ==> start <= p
  }

  /** With a start floor of its own, the read still returns every match after the snapshot exactly when none lies below the floor. */
  lemma StartFloorSkips<S>(w: World<S>, query: seq<Item>, key: string, start: int)
    requires key in w.snapshots
    ensures var after := Select(w.db.log, query, w.snapshots[key].position + 1);
            SourceFused(w, query, key, start).rows == after <==> NoneBelow(after, start)
  {
    hide MatchesQuery;
    var after := Select(w.db.log, query, w.snapshots[key].position + 1);
    var rows := SourceFused(w, query, key, start).rows;
    if NoneBelow(after, start) {
      assert forall p :: p in rows <==> p in after;
      assert rows == after;
    }
  }

  // ---------------------------------------------------------------------------
  // Without a safe query the cache can lose an event for good
  // ---------------------------------------------------------------------------

  /** The fold that keeps every event: if it agrees with replay, every fold does. */
  function Collect(): Fold<seq<Event>> {
    Fold([], (state: seq<Event>, e: Event) => state + [e])
  }

  lemma ReachWorld<S(!new)>(hash: Hash, keyed: Keyed, folds: Folds<S>, w: World<S>, w': World<S>)
    requires Reached(hash, keyed, folds, w) && Takes(hash, keyed, folds, w, w')
    ensures Reached(hash, keyed, folds, w')
  {
    hide Takes;
    var run :| WorldRun(hash, keyed, folds, run) && run[|run| - 1] == w;
    var longer := run + [w'];
    forall i | 0 <= i < |longer| - 1 ensures Takes(hash, keyed, folds, longer[i], longer[i + 1]) {
      if i < |run| - 1 {
        assert longer[i] == run[i] && longer[i + 1] == run[i + 1];
      } else {
        assert longer[i] == w && longer[i + 1] == w';
      }
    }
    assert WorldRun(hash, keyed, folds, longer);
  }

  lemma {:induction false} AppendsReach<S(!new)>(hash: Hash, keyed: Keyed, folds: Folds<S>, run: seq<Db>)
    requires Run(hash, run)
    ensures Reached(hash, keyed, folds, World(run[|run| - 1], map[], []))
  {
    if |run| == 1 {
      assert WorldRun(hash, keyed, folds, [Start<S>()]);
    } else {
      var n := |run| - 1;
      assert Run(hash, run[..n]);
      AppendsReach(hash, keyed, folds, run[..n]);
      var w: World<S>, w': World<S> := World(run[n - 1], map[], []), World(run[n], map[], []);
      assert Appends(hash, w, w');
      ReachWorld(hash, keyed, folds, w, w');
    }
  }

  /** A load in between caches the later event alone. */
  lemma CachedInBetween(hash: Hash, keyed: Keyed, folds: Folds<seq<Event>>, key: string, a: Item, b: Item) returns (w: World<seq<Event>>)
    requires folds(key) == Collect() && a in keyed(key) && b in keyed(key) && !Clash(KeysOf(hash, a.tags), KeysOf(hash, b.tags))
    ensures Reached(hash, keyed, folds, w)
    ensures w.snapshots == map[key := Snapshot([Sample(b)], 2)] && w.db.next == 3 && w.db.log == map[2 := Sample(b)]
    ensures w.db.txs.Keys == {0} && w.db.txs[0].phase.Inserting? && w.db.txs[0].done == |w.db.txs[0].events| == 1
    ensures w.db.txs[0].inserted == map[1 := Sample(a)]
  {
    var query := keyed(key);
    var s := LaterEventFirst(hash, a, b);
    hide Sample, KeysOf, MatchesQuery, SourcePlain;
    var run :| Run(hash, run) && run[|run| - 1] == s;
    AppendsReach(hash, keyed, folds, run);
    hide Run;
    var w0: World<seq<Event>> := World(s, map[], []);
    var load := Loaded(Collect(), w0, query, key);
    LoadInBetween(w0, query, key, b);
    hide Loaded;
    var w1 := AfterLoad(keyed, folds, w0, key);
    ReachWorld(hash, keyed, folds, w0, w1);
    assert w1.loads[0] == load;
    w := w1.(snapshots := map[key := Snapshot([Sample(b)], 2)]);
    assert w.snapshots == w1.snapshots[key := Snapshot(load.state, load.marker)];
    ReachWorld(hash, keyed, folds, w1, w);
  }

  /** Then the earlier event commits. */
  lemma CommitsBehindTheCache(hash: Hash, keyed: Keyed, folds: Folds<seq<Event>>, key: string, a: Item, b: Item) returns (w: World<seq<Event>>)
    requires folds(key) == Collect() && a in keyed(key) && b in keyed(key) && !Clash(KeysOf(hash, a.tags), KeysOf(hash, b.tags))
    ensures Reached(hash, keyed, folds, w)
    ensures w.snapshots == map[key := Snapshot([Sample(b)], 2)]
    ensures w.db.next == 3 && w.db.log == map[1 := Sample(a), 2 := Sample(b)]
  {
    var w0 := CachedInBetween(hash, keyed, folds, key, a, b);
    hide Sample, KeysOf, Reached;
    var db := With(w0.db, 0, w0.db.txs[0].(phase := Committed)).(log := w0.db.log + w0.db.txs[0].inserted);
    assert AppendProtocol.Takes(hash, w0.db, Commit(0), db);
    w := w0.(db := db);
    assert Appends(hash, w0, w);
    ReachWorld(hash, keyed, folds, w0, w);
    assert w.db.log == map[1 := Sample(a), 2 := Sample(b)];
  }

  lemma LoadInBetween(w: World<seq<Event>>, query: seq<Item>, key: string, b: Item)
    requires w.snapshots == map[] && w.db.log == map[2 := Sample(b)] && w.db.next == 3 && b in query
    ensures Loaded(Collect(), w, query, key) == Load(key, [Sample(b)], 2)
  {
    var r := ReadInBetween(query, b);
    hide Sample, MatchesQuery;
    var fold := Collect();
    assert FoldRows(fold, [], r.rows, 0, 3) == FoldRows(fold, [], r.rows, 1, 3) == FoldRows(fold, [], r.rows, 2, 3);
    assert FoldRows(fold, [], r.rows, 2, 3) == FoldRows(fold, [Sample(b)], r.rows, 3, 3);
  }

  /** For a query that is not safe there is a run after which a load misses a committed event. */
  lemma UnsafeQueryLosesAnEvent(hash: Hash, keyed: Keyed, folds: Folds<seq<Event>>, key: string) returns (w: World<seq<Event>>)
    requires folds(key) == Collect() && !Safe(hash, keyed(key))
    ensures Reached(hash, keyed, folds, w)
    ensures Loaded(Collect(), w, keyed(key), key).state != Replay(Collect(), w.db, keyed(key))
  {
    var query := keyed(key);
    var a, b :| a in query && b in query && !Clash(KeysOf(hash, a.tags), KeysOf(hash, b.tags));
    hide KeysOf, Clash, Safe, Reached, Sample, MatchesQuery, FoldRows;
    w := CommitsBehindTheCache(hash, keyed, folds, key, a, b);
    LostByTheCache(w.db.log, query, a, b);
    StaleLoad(w, query, key, a, b);
    assert Replay(Collect(), w.db, query) == [Sample(a), Sample(b)];
    assert |[Sample(a), Sample(b)]| != |[Sample(b)]|;
  }

  /** A load that starts behind everything there is finds the cached state alone. */
  lemma StaleLoad(w: World<seq<Event>>, query: seq<Item>, key: string, a: Item, b: Item)
    requires w.snapshots == map[key := Snapshot([Sample(b)], 2)] && w.db.next == 3 && w.db.log == map[1 := Sample(a), 2 := Sample(b)]
    ensures Loaded(Collect(), w, query, key).state == [Sample(b)]
  {
    hide Sample, MatchesQuery;
    assert Select(w.db.log, query, 3) == map[];
  }

  /** Under one key every load agrees with full replay in all worlds, whatever is cached under others. */
  ghost predicate AlwaysReplays(hash: Hash, keyed: Keyed, folds: Folds<seq<Event>>, key: string) {
    forall w :: Reached(hash, keyed, folds, w) ==> Loaded(folds(key), w, keyed(key), key).state == Replay(folds(key), w.db, keyed(key))
  }

  /** For the fold that keeps every event: the cache is exact under a key if and only if that key's query is safe. */
  lemma CachedExactlyWhenSafe(hash: Hash, keyed: Keyed, folds: Folds<seq<Event>>, key: string)
    requires folds(key) == Collect()
    ensures AlwaysReplays(hash, keyed, folds, key) <==> Safe(hash, keyed(key))
  {
    hide Loaded, Replay, Reached;
    if Safe(hash, keyed(key)) {
      forall w | Reached(hash, keyed, folds, w)
        ensures Loaded(folds(key), w, keyed(key), key).state == Replay(folds(key), w.db, keyed(key))
      {
        FusedReadRefinesReplay(hash, keyed, folds, w, key);
      }
    } else {
      var w := UnsafeQueryLosesAnEvent(hash, keyed, folds, key);
    }
  }

  lemma LostByTheCache(log: Rows, query: seq<Item>, a: Item, b: Item)
    requires a in query && b in query && log == map[1 := Sample(a), 2 := Sample(b)]
    ensures FoldRows(Collect(), [], Select(log, query, 0), 0, 3) == [Sample(a), Sample(b)]
  {
    SampleMatches(query, a);
    SampleMatches(query, b);
    hide Sample, MatchesQuery;
    var all := Select(log, query, 0);
    assert all == log;
    var fold := Collect();
    assert FoldRows(fold, [], all, 0, 3) == FoldRows(fold, [], all, 1, 3);
    assert FoldRows(fold, [], all, 1, 3) == FoldRows(fold, [Sample(a)], all, 2, 3);
    assert FoldRows(fold, [Sample(a)], all, 2, 3) == FoldRows(fold, [Sample(a), Sample(b)], all, 3, 3);
  }

  // ---------------------------------------------------------------------------
  // What a fused read returns, and what replay means
  // ---------------------------------------------------------------------------

  /**
    Whatever is cached and whatever start is asked for: the snapshot if there is one, every
    committed match past both, and the last of these as the marker, or the position just below
    where the scan began.
  */
  lemma FusedReturnsExactly<S(!new)>(hash: Hash, w: World<S>, query: seq<Item>, key: string, start: int)
    requires Reachable(hash, w.db)
    ensures var f := SourceFused(w, query, key, start);
            var covered := if key in w.snapshots then w.snapshots[key].position else -1;
            && (f.snapshot.Some? <==> key in w.snapshots) && (key in w.snapshots ==> f.snapshot.value == w.snapshots[key])
            && (forall p :: p in f.rows <==> p in w.db.log && p > covered && p >= start && MatchesQuery(w.db.log[p], query))
            && (forall p :: p in f.rows ==> f.rows[p] == w.db.log[p] && p <= f.marker)
            && (f.rows != map[] ==> f.marker in f.rows)
            && (f.rows == map[] ==> covered <= f.marker && start - 1 <= f.marker && (f.marker == covered || f.marker == start - 1))
  {
    ReachableInv(hash, w.db);
    hide MatchesQuery, Locking, Prefix, Reading, AppendProtocol.Checked, Visible, Distinct;
    var f := SourceFused(w, query, key, start);
    assert forall p :: p in f.rows ==> f.startAt <= p < w.db.next;
    if f.rows != map[] {
      var p :| p in f.rows;
      assert p <= f.marker;
    }
  }

  /** Any load made so far can be written to the cache, over a newer one too, and is what the next read finds. */
  lemma AnyLoadCanBeCached<S(!new)>(hash: Hash, keyed: Keyed, folds: Folds<S>, w: World<S>, load: Load<S>) returns (w': World<S>)
    requires Reached(hash, keyed, folds, w) && load in w.loads
    ensures Reached(hash, keyed, folds, w') && w'.db == w.db && w'.loads == w.loads
    ensures load.key in w'.snapshots && w'.snapshots[load.key] == Snapshot(load.state, load.marker)
    ensures forall k :: k != load.key ==> (k in w'.snapshots <==> k in w.snapshots) && (k in w.snapshots ==> w'.snapshots[k] == w.snapshots[k])
  {
    w' := w.(snapshots := w.snapshots[load.key := Snapshot(load.state, load.marker)]);
    ReachWorld(hash, keyed, folds, w, w');
  }

  /** The events applied one after another. */
  function Applied<S>(fold: Fold<S>, state: S, events: seq<Event>): S {
    if events == [] then state else Applied(fold, fold.evolve(state, events[0]), events[1..])
  }

  /** The events of rows, at increasing positions, all of them between two bounds. */
  ghost predicate InPositionOrder(rows: Rows, lo: int, hi: int, events: seq<Event>, ps: seq<int>) {
    && |ps| == |events| && (forall i, j :: 0 <= i < j < |ps| ==> ps[i] < ps[j])
    && (forall i :: 0 <= i < |ps| ==> lo <= ps[i] < hi && ps[i] in rows && rows[ps[i]] == events[i])
    && (forall p :: lo <= p < hi && p in rows ==> p in ps)
  }

  lemma OneMoreInOrder(rows: Rows, lo: int, hi: int, events: seq<Event>, ps: seq<int>)
    requires lo < hi && lo in rows && InPositionOrder(rows, lo + 1, hi, events, ps)
    ensures InPositionOrder(rows, lo, hi, [rows[lo]] + events, [lo] + ps)
  {
    var es, qs := [rows[lo]] + events, [lo] + ps;
    forall i | 0 <= i < |qs|
      ensures lo <= qs[i] < hi && qs[i] in rows && rows[qs[i]] == es[i]
    {
      assert i > 0 ==> qs[i] == ps[i - 1] && es[i] == events[i - 1];
    }
    forall i, j | 0 <= i < j < |qs|
      ensures qs[i] < qs[j]
    {
      assert qs[j] == ps[j - 1] && (i > 0 ==> qs[i] == ps[i - 1]);
    }
    forall p | lo <= p < hi && p in rows
      ensures p in qs
    {
      if p > lo {
        var i :| 0 <= i < |ps| && ps[i] == p;
        assert qs[i + 1] == p;
      } else {
        assert qs[0] == p;
      }
    }
  }

  /** Folding rows applies each row's event once, in position order, to the state so far. */
  lemma {:induction false} FoldAppliesInOrder<S>(fold: Fold<S>, state: S, rows: Rows, lo: int, hi: int) returns (events: seq<Event>, ps: seq<int>)
    ensures InPositionOrder(rows, lo, hi, events, ps) && FoldRows(fold, state, rows, lo, hi) == Applied(fold, state, events)
    decreases hi - lo
  {
    if lo >= hi {
      events, ps := [], [];
    } else if lo in rows {
      var es, qs := FoldAppliesInOrder(fold, fold.evolve(state, rows[lo]), rows, lo + 1, hi);
      OneMoreInOrder(rows, lo, hi, es, qs);
      hide InPositionOrder;
      events, ps := [rows[lo]] + es, [lo] + qs;
      assert events[1..] == es;
    } else {
      events, ps := FoldAppliesInOrder(fold, state, rows, lo + 1, hi);
    }
  }

  /** Replay applies every committed match, each once, in position order, to the initial state. */
  lemma ReplayAppliesTheHistory<S>(hash: Hash, fold: Fold<S>, db: Db, query: seq<Item>) returns (events: seq<Event>, ps: seq<int>)
    requires Reachable(hash, db)
    ensures Replay(fold, db, query) == Applied(fold, fold.initial, events)
    ensures |ps| == |events| && forall i, j :: 0 <= i < j < |ps| ==> ps[i] < ps[j]
    ensures forall i :: 0 <= i < |ps| ==> ps[i] in db.log && db.log[ps[i]] == events[i] && MatchesQuery(events[i], query)
    ensures forall p :: p in db.log && p >= 0 && MatchesQuery(db.log[p], query) ==> p in ps
  {
    ReachableInv(hash, db);
    hide MatchesQuery, Locking, Prefix, Reading, AppendProtocol.Checked, Visible, Distinct;
    events, ps := FoldAppliesInOrder(fold, fold.initial, Select(db.log, query, 0), 0, db.next);
  }
}
