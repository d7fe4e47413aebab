/**
  Replaying dead letters with any number of replayers: leases on single letters, taken
  hand over hand along a lane, with failures and crashes at every point.

  One processing group is modelled. Letters are named by the order they were enqueued in;
  the queue only ever compares names for equality. A statement that fails has no effect, a
  unit of work commits its handler's effects and the eviction together or not at all, and
  only replay evicts.
*/
module DeadLetters {
  import opened Wrappers

  /** One row: its lane, its place in it, and when somebody started on it. */
  datatype Letter = Letter(lane: string, index: nat, started: Option<int>)

  type Table = map<nat, Letter>

  /** `maxSequences`, `maxSequenceSize` and `claimDurationMs`. */
  datatype Limits = Limits(lanes: nat, letters: nat, lease: int)

  /** A letter's lease, as the one a replayer took. */
  datatype Hold = Hold(id: nat, lease: int)

  /** A walk keeps the rows it has yet to do; `asked` is that it has tried for the next one. */
  datatype Walker =
    | Trying(lease: int, candidates: seq<nat>)
    | Judging(lease: int, held: Hold, rest: seq<nat>)
    | Walking(rows: seq<nat>, held: Hold, next: Option<Hold>, asked: bool)
    | Releasing(holds: seq<Hold>, lease: int, rest: seq<nat>)

  /**
    `lanes[id]` is the lane letter `id` was enqueued in; `effects` are the committed replays in
    order; `enqueuing` holds, for each lane somebody is enqueueing to, the index read for the letter.
  */
  datatype State = State(lanes: seq<string>, table: Table, effects: seq<nat>, clock: int, walkers: map<nat, Walker>, enqueuing: map<string, nat>)

  // ---------------------------------------------------------------------------
  // Statements
  // ---------------------------------------------------------------------------

  function LaneOf(table: Table, lane: string): set<nat> {
    set id | id in table && table[id].lane == lane
  }

  function LanesOf(table: Table): set<string> {
    set id | id in table :: table[id].lane
  }

  /** One past the last index of the lane, or zero. */
  ghost predicate NextIndex(table: Table, lane: string, index: nat) {
    && (forall id :: id in table && table[id].lane == lane ==> table[id].index < index)
    && (index == 0 || exists id :: id in table && table[id].lane == lane && table[id].index == index - 1)
  }

  /** A new lane needs room for a lane, an old one room for a letter. */
  predicate Fits(limits: Limits, table: Table, lane: string) {
    var size := |LaneOf(table, lane)|;
    if size == 0 then |LanesOf(table)| < limits.lanes else size < limits.letters
  }

  predicate IsHead(table: Table, id: nat) {
    id in table && forall other :: other in table && table[other].lane == table[id].lane ==> table[id].index <= table[other].index
  }

  /** The rows of a lane in index order. */
  ghost predicate IsLane(table: Table, lane: string, rows: seq<nat>) {
    && (forall id :: id in rows <==> id in table && table[id].lane == lane)
    && (forall i, j :: 0 <= i < j < |rows| ==> table[rows[i]].index < table[rows[j]].index)
  }

  predicate Unleased(limits: Limits, letter: Letter, now: int) {
    letter.started.None? || letter.started.value <= now - limits.lease
  }

  function ClaimOn(table: Table, hold: Hold): Table
    requires hold.id in table
  {
    table[hold.id := table[hold.id].(started := Some(hold.lease))]
  }

  /** Clears the lease only while it is still this one. */
  function ReleaseOn(table: Table, hold: Hold): Table {
    if hold.id in table && table[hold.id].started == Some(hold.lease)
    then table[hold.id := table[hold.id].(started := None)] else table
  }

  function EvictOn(table: Table, id: nat): Table {
    map other | other in table && other != id :: table[other]
  }

  // ---------------------------------------------------------------------------
  // Steps
  // ---------------------------------------------------------------------------

  datatype Step =
    | Tick(now: int)
    | BeginEnqueue(lane: string, index: nat)
    | EndEnqueue(lane: string)
    | DropEnqueue(lane: string)
    | Select(w: nat, lease: int, candidates: seq<nat>)
    | TryClaim(w: nat, ok: bool)
    | ReadLane(w: nat, rows: seq<nat>, passes: bool)
    | LaneReadFails(w: nat)
    | ClaimNext(w: nat, lease: int, ok: bool)
    | CommitLetter(w: nat)
    | LetterFails(w: nat)
    | WorkFails(w: nat)
    | Release(w: nat, ok: bool)
    | Leave(w: nat)

  function Put(s: State, w: nat, walker: Walker): State {
    s.(walkers := s.walkers[w := walker])
  }

  function Gone(s: State, w: nat): State {
    s.(walkers := map u | u in s.walkers && u != w :: s.walkers[u])
  }

  /** Enqueues to one lane come one after another, but not those to different lanes. */
  function Enqueued(s: State, lane: string): State {
    s.(enqueuing := map other | other in s.enqueuing && other != lane :: s.enqueuing[other])
  }

  ghost predicate TakesTryClaim(limits: Limits, s: State, w: nat, ok: bool, s': State) {
    && w in s.walkers && s.walkers[w].Trying? && s.walkers[w].candidates != []
    && var v := s.walkers[w];
       var hold := Hold(v.candidates[0], v.lease);
       if ok then
         && hold.id in s.table && Unleased(limits, s.table[hold.id], hold.lease)
         && s' == Put(s, w, Judging(v.lease, hold, v.candidates[1..])).(table := ClaimOn(s.table, hold))
       else
         s' == Put(s, w, v.(candidates := v.candidates[1..]))
  }

  ghost predicate TakesReadLane(s: State, w: nat, rows: seq<nat>, passes: bool, s': State) {
    && w in s.walkers && s.walkers[w].Judging?
    && var v := s.walkers[w];
       && v.held.id < |s.lanes| && IsLane(s.table, s.lanes[v.held.id], rows)
       && (passes ==> rows != [])
       && s' == Put(s, w, if passes then Walking(rows, v.held, None, false) else Releasing([v.held], v.lease, v.rest))
  }

  ghost predicate TakesClaimNext(limits: Limits, s: State, w: nat, lease: int, ok: bool, s': State) {
    && w in s.walkers && s.walkers[w].Walking? && !s.walkers[w].asked && |s.walkers[w].rows| > 1
    && var v := s.walkers[w];
       var hold := Hold(v.rows[1], lease);
       if ok then
         && lease <= s.clock && hold.id in s.table && Unleased(limits, s.table[hold.id], lease)
         && s' == Put(s, w, v.(asked := true, next := Some(hold))).(table := ClaimOn(s.table, hold))
       else
         s' == Put(s, w, v.(asked := true))
  }

  /** The eviction commits with the handler's effects, and the walk goes on if the next letter is in hand. */
  ghost predicate TakesCommitLetter(s: State, w: nat, s': State) {
    && w in s.walkers && s.walkers[w].Walking? && s.walkers[w].rows != []
    && var v := s.walkers[w];
       && (|v.rows| > 1 ==> v.asked)
       && var t := s.(table := EvictOn(s.table, v.rows[0]), effects := s.effects + [v.rows[0]]);
          s' == if v.next.None? then Gone(t, w) else Put(t, w, Walking(v.rows[1..], v.next.value, None, false))
  }

  ghost predicate TakesRelease(s: State, w: nat, ok: bool, s': State) {
    && w in s.walkers && s.walkers[w].Releasing?
    && var v := s.walkers[w];
       if v.holds == [] then s' == Put(s, w, Trying(v.lease, v.rest))
       else s' == Put(s, w, v.(holds := v.holds[1..])).(table := if ok then ReleaseOn(s.table, v.holds[0]) else s.table)
  }

  ghost predicate Takes(limits: Limits, s: State, step: Step, s': State) {
    match step
    case Tick(now) => now >= s.clock && s' == s.(clock := now)
    case BeginEnqueue(lane, index) =>
      && lane !in s.enqueuing && Fits(limits, s.table, lane) && NextIndex(s.table, lane, index)
      && s' == s.(enqueuing := s.enqueuing[lane := index])
    case EndEnqueue(lane) =>
      && lane in s.enqueuing
      && s' == Enqueued(s, lane).(lanes := s.lanes + [lane], table := s.table[|s.lanes| := Letter(lane, s.enqueuing[lane], None)])
    case DropEnqueue(lane) =>
      lane in s.enqueuing && s' == Enqueued(s, lane)
    case Select(w, lease, candidates) =>
      && w !in s.walkers && lease <= s.clock
      && (forall c :: c in candidates ==> IsHead(s.table, c) && Unleased(limits, s.table[c], lease))
      && s' == Put(s, w, Trying(lease, candidates))
    case TryClaim(w, ok) => TakesTryClaim(limits, s, w, ok, s')
    case ReadLane(w, rows, passes) => TakesReadLane(s, w, rows, passes, s')
    case LaneReadFails(w) =>
      w in s.walkers && s.walkers[w].Judging? && s' == Put(s, w, Releasing([s.walkers[w].held], s.walkers[w].lease, []))
    case ClaimNext(w, lease, ok) => TakesClaimNext(limits, s, w, lease, ok, s')
    case CommitLetter(w) => TakesCommitLetter(s, w, s')
    case LetterFails(w) =>
      && w in s.walkers && s.walkers[w].Walking? && !s.walkers[w].asked
      && s' == Put(s, w, Releasing([s.walkers[w].held], 0, []))
    case WorkFails(w) =>
      && w in s.walkers && s.walkers[w].Walking?
      && s' == Put(s, w, Releasing([s.walkers[w].held] + (if s.walkers[w].next.Some? then [s.walkers[w].next.value] else []), 0, []))
    case Release(w, ok) => TakesRelease(s, w, ok, s')
    case Leave(w) => w in s.walkers && s' == Gone(s, w)
  }

  ghost predicate NextState(limits: Limits, s: State, s': State) {
    exists step :: Takes(limits, s, step, s')
  }

  /** The step that leads to the run's `i`-th state is one of the protocol's. */
  ghost predicate StepAt(limits: Limits, run: seq<State>, i: nat) {
    0 < i < |run| ==> NextState(limits, run[i - 1], run[i])
  }

  predicate HoldsIt(v: Walker, h: Hold) {
    match v
    case Trying(_, _) => false
    case Judging(_, held, _) => h == held
    case Walking(_, held, next, _) => h == held || Some(h) == next
    case Releasing(holds, _, _) => h in holds
  }

  /** No live walker's lease ages out. */
  ghost predicate LeasesOutlastWalkers(limits: Limits, s: State) {
    forall w, h :: w in s.walkers && HoldsIt(s.walkers[w], h) ==> s.clock < h.lease + limits.lease
  }

  ghost predicate Run(limits: Limits, run: seq<State>) {
    && |run| > 0 && run[0].lanes == [] && run[0].table == map[] && run[0].effects == [] && run[0].walkers == map[] && run[0].enqueuing == map[]
    && (forall i: nat :: StepAt(limits, run, i))
    && (forall i :: 0 <= i < |run| ==> LeasesOutlastWalkers(limits, run[i]))
  }

  // ---------------------------------------------------------------------------
  // Invariant
  // ---------------------------------------------------------------------------

  /** A letter keeps its lane, and index order in a lane is enqueue order. */
  ghost predicate TableInv(s: State) {
    && (forall id :: id in s.table ==> id < |s.lanes| && s.table[id].lane == s.lanes[id])
    && (forall a, b :: a in s.table && b in s.table && a < b && SameLane(s, a, b) ==> s.table[a].index < s.table[b].index)
  }

  predicate SameLane(s: State, a: nat, b: nat) {
    a < |s.lanes| && b < |s.lanes| && s.lanes[a] == s.lanes[b]
  }

  /** Committed replays are exactly the letters that are gone, each once, and per lane in enqueue order. */
  ghost predicate EffectsInv(s: State) {
    && (forall id: nat :: id in s.effects <==> id < |s.lanes| && id !in s.table)
    && (forall i, j :: 0 <= i < j < |s.effects| ==> s.effects[i] != s.effects[j])
    && (forall i, j :: 0 <= i < j < |s.effects| && SameLane(s, s.effects[i], s.effects[j]) ==> s.effects[i] < s.effects[j])
  }

  /** Letters leave a lane from the front. */
  ghost predicate FrontInv(s: State) {
    forall a, b :: a in s.table && a < b && SameLane(s, a, b) ==> b in s.table
  }

  /** A lease in hand is the one in the table, and no two walkers hold one letter. */
  ghost predicate HoldInv(s: State) {
    && (forall w, h :: w in s.walkers && HoldsIt(s.walkers[w], h) ==> h.id in s.table && s.table[h.id].started == Some(h.lease))
    && (forall w, u, h, g :: w in s.walkers && u in s.walkers && w != u && HoldsIt(s.walkers[w], h) && HoldsIt(s.walkers[u], g) ==> h.id != g.id)
    && (forall w :: w in s.walkers && s.walkers[w].Releasing? ==> DistinctHolds(s.walkers[w].holds))
  }

  ghost predicate DistinctHolds(holds: seq<Hold>) {
    forall i, j :: 0 <= i < j < |holds| ==> holds[i].id != holds[j].id
  }

  function Candidates(v: Walker): seq<nat> {
    match v
    case Trying(_, candidates) => candidates
    case Judging(_, held, rest) => [held.id] + rest
    case Walking(_, _, _, _) => []
    case Releasing(_, _, rest) => rest
  }

  /** A candidate that is still there is still its lane's head. */
  ghost predicate GoodCandidate(s: State, c: nat) {
    c < |s.lanes| && (c in s.table ==> IsHead(s.table, c))
  }

  ghost predicate GoodCandidates(s: State, v: Walker) {
    forall c :: c in Candidates(v) ==> GoodCandidate(s, c)
  }

  ghost predicate CandidateInv(s: State) {
    forall w :: w in s.walkers ==> GoodCandidates(s, s.walkers[w])
  }

  /** The rest of a walk is the front of its lane, and the walker holds the letter it is at. */
  ghost predicate WalkInv(s: State, v: Walker) {
    v.Walking? ==>
      && v.rows != [] && v.held.id == v.rows[0] && v.held.id in s.table
      && (v.next.Some? ==> |v.rows| > 1 && v.next.value.id == v.rows[1] && v.asked)
      && Ascending(v.rows) && IsFront(s.table, s.table[v.held.id].lane, v.rows)
  }

  ghost predicate Ascending(rows: seq<nat>) {
    forall i, j :: 0 <= i < j < |rows| ==> rows[i] < rows[j]
  }

  /** The rows are in the lane and everything else in it comes after them. */
  ghost predicate IsFront(table: Table, lane: string, rows: seq<nat>) {
    && (forall k :: k in rows ==> k in table && table[k].lane == lane)
    && (forall k, r :: k in table && table[k].lane == lane && k !in rows && r in rows ==> r < k)
  }

  ghost predicate WalksInv(s: State) {
    forall w :: w in s.walkers ==> WalkInv(s, s.walkers[w])
  }

  /** A letter about to be inserted comes after everything in its lane. */
  ghost predicate EnqueueInv(s: State) {
    forall lane, id :: lane in s.enqueuing && id in s.table && s.table[id].lane == lane ==> s.table[id].index < s.enqueuing[lane]
  }

  ghost predicate Inv(s: State) {
    TableInv(s) && EffectsInv(s) && FrontInv(s) && HoldInv(s) && CandidateInv(s) && WalksInv(s) && EnqueueInv(s)
  }

  /** A walker at a letter is at the head of its lane. */
  lemma WalkerIsAtHead(s: State, v: Walker)
    requires v.Walking? && WalkInv(s, v)
    ensures v.held.id in s.table
    ensures forall k :: k in s.table && s.table[k].lane == s.table[v.held.id].lane ==> v.held.id <= k
  {
    assert v.rows[0] in v.rows;
  }

  /** At most one walker is at work in a lane. */
  lemma OneWalkerPerLane(s: State, w: nat, u: nat)
    requires HoldInv(s) && WalksInv(s)
    requires w in s.walkers && u in s.walkers && w != u && s.walkers[w].Walking? && s.walkers[u].Walking?
    ensures s.walkers[w].held.id in s.table && s.walkers[u].held.id in s.table
    ensures s.table[s.walkers[w].held.id].lane != s.table[s.walkers[u].held.id].lane
  {
    hide WalkInv;
    WalkerIsAtHead(s, s.walkers[w]);
    WalkerIsAtHead(s, s.walkers[u]);
    assert HoldsIt(s.walkers[w], s.walkers[w].held) && HoldsIt(s.walkers[u], s.walkers[u].held);
  }

  // ---------------------------------------------------------------------------
  // Steps keep the invariant
  // ---------------------------------------------------------------------------

  /** The rows are the same but for their leases. */
  ghost predicate SameLetters(t: Table, t': Table) {
    t.Keys == t'.Keys && forall id :: id in t ==> t[id].lane == t'[id].lane && t[id].index == t'[id].index
  }

  lemma LeasesDoNotMatter(s: State, s': State)
    requires SameLetters(s.table, s'.table) && s'.lanes == s.lanes && s'.effects == s.effects && s'.enqueuing == s.enqueuing
    requires TableInv(s) && EffectsInv(s) && FrontInv(s) && EnqueueInv(s)
    ensures TableInv(s') && EffectsInv(s') && FrontInv(s') && EnqueueInv(s')
  {
    assert forall a: nat, b: nat :: SameLane(s, a, b) == SameLane(s', a, b);
  }

  lemma LeasesDoNotMatterToHeads(s: State, s': State, v: Walker)
    requires SameLetters(s.table, s'.table) && s'.lanes == s.lanes && GoodCandidates(s, v)
    ensures GoodCandidates(s', v)
  {
    forall c | c in Candidates(v)
      ensures GoodCandidate(s', c)
    {
      assert GoodCandidate(s, c);
    }
  }

  lemma LeasesDoNotMatterToWalks(s: State, s': State, v: Walker)
    requires SameLetters(s.table, s'.table) && WalkInv(s, v)
    ensures WalkInv(s', v)
  {
  }

  /** What a step of walker `w` that leaves the letters alone has to show. */
  lemma LocalStep(s: State, w: nat, s': State)
    requires Inv(s) && SameLetters(s.table, s'.table) && s'.lanes == s.lanes && s'.effects == s.effects && s'.enqueuing == s.enqueuing
    requires forall u :: u in s'.walkers && u != w ==> u in s.walkers && s'.walkers[u] == s.walkers[u]
    requires w in s'.walkers ==> WalkInv(s', s'.walkers[w])
    requires w in s'.walkers ==> GoodCandidates(s, s'.walkers[w])
    ensures TableInv(s') && EffectsInv(s') && FrontInv(s') && CandidateInv(s') && WalksInv(s') && EnqueueInv(s')
  {
    hide GoodCandidates, WalkInv, TableInv, EffectsInv, FrontInv, SameLetters, HoldInv, EnqueueInv;
    LeasesDoNotMatter(s, s');
    forall u | u in s'.walkers
      ensures GoodCandidates(s', s'.walkers[u]) && WalkInv(s', s'.walkers[u])
    {
      LeasesDoNotMatterToHeads(s, s', s'.walkers[u]);
      if u != w {
        LeasesDoNotMatterToWalks(s, s', s.walkers[u]);
      }
    }
  }

  /** A claim that succeeds takes a letter nobody holds. */
  lemma ClaimedLetterIsFree(limits: Limits, s: State, hold: Hold, u: nat, g: Hold)
    requires HoldInv(s) && LeasesOutlastWalkers(limits, s)
    requires hold.lease <= s.clock && hold.id in s.table && Unleased(limits, s.table[hold.id], hold.lease)
    requires u in s.walkers && HoldsIt(s.walkers[u], g)
    ensures g.id != hold.id
  {
  }

  lemma ClaimKeepsHolds(limits: Limits, s: State, w: nat, hold: Hold, s': State)
    requires HoldInv(s) && LeasesOutlastWalkers(limits, s)
    requires hold.lease <= s.clock && hold.id in s.table && Unleased(limits, s.table[hold.id], hold.lease)
    requires w in s'.walkers && s'.walkers.Keys == s.walkers.Keys && s'.table == ClaimOn(s.table, hold)
    requires forall u :: u in s'.walkers && u != w ==> s'.walkers[u] == s.walkers[u]
    requires forall h :: HoldsIt(s'.walkers[w], h) ==> h == hold || HoldsIt(s.walkers[w], h)
    requires !s'.walkers[w].Releasing?
    ensures HoldInv(s')
  {
    hide HoldsIt, Unleased;
    forall u, g | u in s.walkers && HoldsIt(s.walkers[u], g)
      ensures g.id != hold.id
    {
      ClaimedLetterIsFree(limits, s, hold, u, g);
    }
  }

  lemma HoldsCarryOver(s: State, s': State)
    requires HoldInv(s)
    requires forall u, h :: u in s'.walkers && HoldsIt(s'.walkers[u], h) ==> CarriesOver(s, s', u, h)
    requires forall u :: u in s'.walkers && s'.walkers[u].Releasing? ==> DistinctHolds(s'.walkers[u].holds)
    ensures HoldInv(s')
  {
    hide HoldsIt, DistinctHolds;
    forall u, h | u in s'.walkers && HoldsIt(s'.walkers[u], h)
      ensures CarriesOver(s, s', u, h)
    {
    }
  }

  ghost predicate CarriesOver(s: State, s': State, u: nat, h: Hold) {
    && u in s.walkers && HoldsIt(s.walkers[u], h)
    && (h.id in s.table ==> h.id in s'.table && s'.table[h.id].started == s.table[h.id].started)
  }

  lemma OwnHoldsOnly(s: State, w: nat, s': State)
    requires HoldInv(s) && s'.table == s.table
    requires forall u :: u in s'.walkers && u != w ==> u in s.walkers && s'.walkers[u] == s.walkers[u]
    requires w in s'.walkers ==> forall h :: HoldsIt(s'.walkers[w], h) ==> w in s.walkers && HoldsIt(s.walkers[w], h)
    requires w in s'.walkers && s'.walkers[w].Releasing? ==> DistinctHolds(s'.walkers[w].holds)
    ensures HoldInv(s')
  {
    hide HoldsIt, DistinctHolds;
    HoldsCarryOver(s, s');
  }

  lemma HoldersAreApart(s: State, w: nat, h: Hold, u: nat, g: Hold)
    requires HoldInv(s) && w in s.walkers && u in s.walkers && HoldsIt(s.walkers[w], h) && HoldsIt(s.walkers[u], g)
    ensures h.id in s.table && (w != u ==> h.id != g.id)
  {
    hide HoldsIt, DistinctHolds;
  }

  lemma TryClaimKeepsInv(limits: Limits, s: State, step: Step, s': State)
    requires Inv(s) && LeasesOutlastWalkers(limits, s) && LeaseClocks(s) && step.TryClaim? && Takes(limits, s, step, s')
    ensures Inv(s')
  {
    hide TableInv, EffectsInv, FrontInv, EnqueueInv, WalksInv, GoodCandidate;
    var w := step.w;
    var v := s.walkers[w];
    assert GoodCandidates(s, v) && Candidates(v) == v.candidates;
    assert v.candidates[0] in v.candidates;
    assert forall c :: c in v.candidates[1..] ==> c in v.candidates;
    assert GoodCandidates(s, s'.walkers[w]);
    LocalStep(s, w, s');
    if step.ok {
      ClaimKeepsHolds(limits, s, w, Hold(v.candidates[0], v.lease), s');
    } else {
      OwnHoldsOnly(s, w, s');
    }
  }

  /** A walker's own clock reading never runs ahead. */
  ghost predicate LeaseClocks(s: State) {
    forall w :: w in s.walkers && Candidates(s.walkers[w]) != [] ==> s.walkers[w].lease <= s.clock
  }

  lemma ReadLaneKeepsInv(limits: Limits, s: State, step: Step, s': State)
    requires Inv(s) && step.ReadLane? && Takes(limits, s, step, s')
    ensures Inv(s')
  {
    hide EffectsInv, FrontInv, WalksInv, EnqueueInv;
    var w, rows := step.w, step.rows;
    var v := s.walkers[w];
    assert HoldsIt(v, v.held) && GoodCandidates(s, v) && Candidates(v) == [v.held.id] + v.rest;
    assert v.held.id in Candidates(v) && forall c :: c in v.rest ==> c in Candidates(v);
    if step.passes {
      FreshLaneStartsAtHead(s, v.held, rows);
      assert WalkInv(s', s'.walkers[w]);
    }
    LocalStep(s, w, s');
    OwnHoldsOnly(s, w, s');
  }

  lemma FreshLaneStartsAtHead(s: State, held: Hold, rows: seq<nat>)
    requires TableInv(s) && held.id in s.table && IsHead(s.table, held.id)
    requires IsLane(s.table, s.lanes[held.id], rows) && rows != []
    ensures WalkInv(s, Walking(rows, held, None, false))
  {
    assert held.id in rows;
    var i :| 0 <= i < |rows| && rows[i] == held.id;
    assert rows[0] in rows;
    assert s.table[rows[0]].lane == s.table[held.id].lane;
    assert i == 0;
    forall i, j | 0 <= i < j < |rows|
      ensures rows[i] < rows[j]
    {
      assert rows[i] in rows && rows[j] in rows;
      assert SameLane(s, rows[i], rows[j]) && SameLane(s, rows[j], rows[i]);
      assert s.table[rows[i]].index < s.table[rows[j]].index;
    }
  }

  lemma ClaimNextKeepsInv(limits: Limits, s: State, step: Step, s': State)
    requires Inv(s) && LeasesOutlastWalkers(limits, s) && step.ClaimNext? && Takes(limits, s, step, s')
    ensures Inv(s')
  {
    hide TableInv, EffectsInv, FrontInv, EnqueueInv, CandidateInv, GoodCandidate, HoldInv;
    var w := step.w;
    var v := s.walkers[w];
    assert WalkInv(s, v);
    assert WalkInv(s', s'.walkers[w]);
    hide WalkInv;
    LocalStep(s, w, s');
    if step.ok {
      ClaimKeepsHolds(limits, s, w, Hold(v.rows[1], step.lease), s');
    } else {
      OwnHoldsOnly(s, w, s');
    }
  }

  lemma StopKeepsInv(limits: Limits, s: State, step: Step, s': State)
    requires Inv(s) && Takes(limits, s, step, s')
    requires step.LaneReadFails? || step.LetterFails? || step.WorkFails? || step.Leave?
    ensures Inv(s')
  {
    hide TableInv, EffectsInv, FrontInv, EnqueueInv, GoodCandidate, HoldInv;
    var w := step.w;
    var v := s.walkers[w];
    assert WalkInv(s, v) && GoodCandidates(s, v);
    LocalStep(s, w, s');
    OwnHoldsOnly(s, w, s');
  }

  lemma ReleaseKeepsInv(limits: Limits, s: State, step: Step, s': State)
    requires Inv(s) && step.Release? && Takes(limits, s, step, s')
    ensures Inv(s')
  {
    hide TableInv, EffectsInv, FrontInv, EnqueueInv, GoodCandidate, WalksInv, HoldInv;
    var w := step.w;
    var v := s.walkers[w];
    assert GoodCandidates(s, v);
    LocalStep(s, w, s');
    if v.holds != [] {
      ReleaseKeepsHolds(s, w, step.ok, s');
    } else {
      OwnHoldsOnly(s, w, s');
    }
  }

  lemma ReleaseKeepsHolds(s: State, w: nat, ok: bool, s': State)
    requires HoldInv(s) && TakesRelease(s, w, ok, s') && s.walkers[w].holds != []
    ensures HoldInv(s')
  {
    var holds := s.walkers[w].holds;
    RestOfHolds(holds);
    assert HoldsIt(s.walkers[w], holds[0]);
    assert forall u :: u in s'.walkers && s'.walkers[u].Releasing? ==> DistinctHolds(s'.walkers[u].holds);
    hide HoldInv, DistinctHolds;
    forall u, h | u in s'.walkers && HoldsIt(s'.walkers[u], h)
      ensures CarriesOver(s, s', u, h)
    {
      HoldersAreApart(s, w, holds[0], u, h);
    }
    HoldsCarryOver(s, s');
  }

  lemma RestOfHolds(holds: seq<Hold>)
    requires DistinctHolds(holds) && holds != []
    ensures holds[0] in holds && DistinctHolds(holds[1..])
    ensures forall h :: h in holds[1..] ==> h in holds && h.id != holds[0].id
  {
  }

  // --- enqueueing

  lemma EnqueueKeepsLetters(limits: Limits, s: State, step: Step, s': State)
    requires Inv(s) && step.EndEnqueue? && Takes(limits, s, step, s')
    ensures TableInv(s') && EffectsInv(s') && FrontInv(s')
  {
    hide HoldInv, CandidateInv, WalksInv;
    var new_ := |s.lanes|;
    assert forall id: nat :: id < |s.lanes| ==> s'.lanes[id] == s.lanes[id];
    assert forall a: nat, b: nat :: a < new_ && b < new_ ==> SameLane(s', a, b) == SameLane(s, a, b);
    assert new_ !in s.table && new_ !in s.effects;
  }

  lemma EnqueueKeepsWalkers(limits: Limits, s: State, step: Step, s': State)
    requires Inv(s) && step.EndEnqueue? && Takes(limits, s, step, s')
    ensures CandidateInv(s') && WalksInv(s')
  {
    hide HoldInv, EffectsInv, FrontInv;
    forall w | w in s'.walkers
      ensures GoodCandidates(s', s'.walkers[w]) && WalkInv(s', s'.walkers[w])
    {
      var v := s.walkers[w];
      assert GoodCandidates(s, v) && WalkInv(s, v);
      forall c | c in Candidates(v)
        ensures GoodCandidate(s', c)
      {
        assert GoodCandidate(s, c);
      }
    }
  }

  lemma EnqueueKeepsInv(limits: Limits, s: State, step: Step, s': State)
    requires Inv(s) && step.EndEnqueue? && Takes(limits, s, step, s')
    ensures Inv(s')
  {
    EnqueueKeepsLetters(limits, s, step, s');
    EnqueueKeepsWalkers(limits, s, step, s');
    assert |s.lanes| !in s.table;
    assert EnqueueInv(s');
    hide TableInv, EffectsInv, FrontInv, EnqueueInv, WalksInv, CandidateInv, HoldsIt, DistinctHolds;
    assert s'.walkers == s.walkers;
    assert forall u :: u in s'.walkers && s'.walkers[u].Releasing? ==> DistinctHolds(s'.walkers[u].holds);
    hide HoldInv;
    HoldsCarryOver(s, s');
  }

  lemma ReadingKeepsInv(limits: Limits, s: State, step: Step, s': State)
    requires Inv(s) && (step.BeginEnqueue? || step.DropEnqueue?) && Takes(limits, s, step, s')
    ensures Inv(s')
  {
    assert EnqueueInv(s');
    EnqueuingDoesNotMatter(s, s');
  }

  /** Only the letters a state has, and its walkers, matter to the rest of the invariant. */
  lemma EnqueuingDoesNotMatter(s: State, s': State)
    requires Inv(s) && s' == s.(enqueuing := s'.enqueuing)
    ensures TableInv(s') && EffectsInv(s') && FrontInv(s') && HoldInv(s') && CandidateInv(s') && WalksInv(s')
  {
    hide EnqueueInv;
    LettersIgnoreEnqueuing(s, s');
    hide TableInv, EffectsInv, FrontInv;
    HoldsIgnoreEnqueuing(s, s');
    hide HoldInv, GoodCandidate;
    forall w | w in s'.walkers
      ensures GoodCandidates(s', s'.walkers[w]) && WalkInv(s', s'.walkers[w])
    {
      assert GoodCandidates(s, s.walkers[w]) && WalkInv(s, s.walkers[w]);
      CandidatesIgnoreEnqueuing(s, s', s.walkers[w]);
    }
  }

  lemma LettersIgnoreEnqueuing(s: State, s': State)
    requires TableInv(s) && EffectsInv(s) && FrontInv(s) && s' == s.(enqueuing := s'.enqueuing)
    ensures TableInv(s') && EffectsInv(s') && FrontInv(s')
  {
    assert forall a: nat, b: nat :: SameLane(s', a, b) == SameLane(s, a, b);
  }

  lemma HoldsIgnoreEnqueuing(s: State, s': State)
    requires HoldInv(s) && s' == s.(enqueuing := s'.enqueuing)
    ensures HoldInv(s')
  {
    hide HoldsIt, DistinctHolds;
  }

  lemma CandidatesIgnoreEnqueuing(s: State, s': State, v: Walker)
    requires GoodCandidates(s, v) && s' == s.(enqueuing := s'.enqueuing)
    ensures GoodCandidates(s', v)
  {
    hide IsHead;
    forall c | c in Candidates(v)
      ensures GoodCandidate(s', c)
    {
      assert GoodCandidate(s, c);
    }
  }

  // --- committing a letter

  lemma CommitKeepsLetters(limits: Limits, s: State, step: Step, s': State)
    requires Inv(s) && step.CommitLetter? && Takes(limits, s, step, s')
    ensures TableInv(s') && EffectsInv(s') && FrontInv(s')
  {
    hide HoldInv, CandidateInv;
    var v := s.walkers[step.w];
    assert WalkInv(s, v);
    WalkerIsAtHead(s, v);
    hide WalksInv, WalkInv;
    var x := v.rows[0];
    assert forall a: nat, b: nat :: SameLane(s', a, b) == SameLane(s, a, b);
    assert x in s.table && x !in s.effects;
    assert forall a :: a in s.table && SameLane(s, a, x) ==> x <= a;
    forall i | 0 <= i < |s.effects| && SameLane(s, s.effects[i], x)
      ensures s.effects[i] < x
    {
      assert s.effects[i] in s.effects;
      assert SameLane(s, x, s.effects[i]);
    }
  }

  lemma CommitKeepsCandidates(s: State, w: nat, s': State)
    requires CandidateInv(s) && TakesCommitLetter(s, w, s')
    ensures CandidateInv(s')
  {
    forall u | u in s'.walkers
      ensures GoodCandidates(s', s'.walkers[u])
    {
      if u != w {
        assert GoodCandidates(s, s.walkers[u]);
        forall c | c in Candidates(s.walkers[u])
          ensures GoodCandidate(s', c)
        {
          assert GoodCandidate(s, c);
        }
      }
    }
  }

  lemma CommitKeepsOwnWalk(s: State, w: nat, s': State)
    requires TakesCommitLetter(s, w, s') && WalkInv(s, s.walkers[w])
    ensures w in s'.walkers ==> WalkInv(s', s'.walkers[w])
  {
    var v := s.walkers[w];
    if w in s'.walkers {
      assert s'.table == EvictOn(s.table, v.rows[0]);
      WalkMovesOn(s, v, s', s'.walkers[w]);
    }
  }

  lemma WalkMovesOn(s: State, v: Walker, s': State, v': Walker)
    requires v.Walking? && WalkInv(s, v) && v.next.Some? && s'.table == EvictOn(s.table, v.rows[0])
    requires v' == Walking(v.rows[1..], v.next.value, None, false)
    ensures WalkInv(s', v')
  {
    var rows, rest := v.rows, v.rows[1..];
    assert rows == [rows[0]] + rest && rest[0] == rows[1] && rows[1] in rows;
    assert Ascending(rest);
    assert forall k :: k in rest ==> k in rows && k != rows[0];
  }

  lemma CommitKeepsOtherWalks(s: State, w: nat, s': State, u: nat)
    requires HoldInv(s) && WalksInv(s) && TakesCommitLetter(s, w, s') && u in s.walkers && u != w
    ensures WalkInv(s', s.walkers[u])
  {
    if s.walkers[u].Walking? {
      OneWalkerPerLane(s, w, u);
    }
    hide HoldInv;
    assert WalkInv(s, s.walkers[u]) && WalkInv(s, s.walkers[w]);
    hide WalksInv;
    assert forall k :: k in s'.table ==> k in s.table && s'.table[k] == s.table[k];
  }

  lemma CommitKeepsHolds(s: State, w: nat, s': State)
    requires HoldInv(s) && WalksInv(s) && TakesCommitLetter(s, w, s')
    ensures HoldInv(s')
  {
    var v := s.walkers[w];
    assert WalkInv(s, v) && HoldsIt(v, v.held);
    assert v.next.Some? ==> v.next.value.id != v.held.id && HoldsIt(v, v.next.value);
    assert forall u :: u in s'.walkers && s'.walkers[u].Releasing? ==> DistinctHolds(s'.walkers[u].holds) by {
      hide WalksInv, WalkInv;
    }
    hide HoldInv, WalksInv, WalkInv, DistinctHolds;
    forall u, h | u in s'.walkers && HoldsIt(s'.walkers[u], h)
      ensures CarriesOver(s, s', u, h)
    {
      if u != w {
        HoldersAreApart(s, w, v.held, u, h);
      }
    }
    HoldsCarryOver(s, s');
  }

  lemma CommitKeepsInv(limits: Limits, s: State, step: Step, s': State)
    requires Inv(s) && step.CommitLetter? && Takes(limits, s, step, s')
    ensures Inv(s')
  {
    var w := step.w;
    CommitKeepsLetters(limits, s, step, s');
    assert EnqueueInv(s') by {
      assert forall id :: id in s'.table ==> id in s.table && s'.table[id] == s.table[id];
      hide TableInv, EffectsInv, FrontInv, HoldInv, CandidateInv, WalksInv;
    }
    hide TableInv, EffectsInv, FrontInv, EnqueueInv, HoldInv, CandidateInv, WalkInv;
    CommitKeepsCandidates(s, w, s');
    CommitKeepsHolds(s, w, s');
    CommitKeepsOwnWalk(s, w, s');
    forall u | u in s'.walkers
      ensures WalkInv(s', s'.walkers[u])
    {
      if u != w {
        CommitKeepsOtherWalks(s, w, s', u);
      }
    }
  }

  // ---------------------------------------------------------------------------
  // Results over whole runs
  // ---------------------------------------------------------------------------

  lemma SelectKeepsInv(limits: Limits, s: State, step: Step, s': State)
    requires Inv(s) && step.Select? && Takes(limits, s, step, s')
    ensures Inv(s')
  {
    hide EffectsInv, FrontInv, WalksInv, EnqueueInv;
    LocalStep(s, step.w, s');
    OwnHoldsOnly(s, step.w, s');
  }

  lemma HoldsIgnoreClock(s: State, s': State)
    requires HoldInv(s) && s' == s.(clock := s'.clock)
    ensures HoldInv(s')
  {
    hide HoldsIt, DistinctHolds;
  }

  lemma TickKeepsInv(limits: Limits, s: State, step: Step, s': State)
    requires Inv(s) && step.Tick? && Takes(limits, s, step, s')
    ensures Inv(s')
  {
    hide EffectsInv, FrontInv, TableInv, HoldInv, GoodCandidate, EnqueueInv;
    forall w | w in s.walkers
      ensures GoodCandidates(s, s'.walkers[w]) && WalkInv(s', s'.walkers[w])
    {
      LeasesDoNotMatterToWalks(s, s', s.walkers[w]);
    }
    hide WalkInv, GoodCandidates;
    LocalStep(s, 0, s');
    HoldsIgnoreClock(s, s');
  }

  lemma StepKeepsInv(limits: Limits, s: State, step: Step, s': State)
    requires Inv(s) && LeaseClocks(s) && LeasesOutlastWalkers(limits, s) && Takes(limits, s, step, s')
    ensures Inv(s')
  {
    hide Inv, Takes, LeaseClocks, LeasesOutlastWalkers;
    if step.Tick? {
      TickKeepsInv(limits, s, step, s');
    } else if step.EndEnqueue? {
      EnqueueKeepsInv(limits, s, step, s');
    } else if step.BeginEnqueue? || step.DropEnqueue? {
      ReadingKeepsInv(limits, s, step, s');
    } else if step.Select? {
      SelectKeepsInv(limits, s, step, s');
    } else if step.TryClaim? {
      TryClaimKeepsInv(limits, s, step, s');
    } else if step.ReadLane? {
      ReadLaneKeepsInv(limits, s, step, s');
    } else if step.ClaimNext? {
      ClaimNextKeepsInv(limits, s, step, s');
    } else if step.CommitLetter? {
      CommitKeepsInv(limits, s, step, s');
    } else if step.Release? {
      ReleaseKeepsInv(limits, s, step, s');
    } else {
      StopKeepsInv(limits, s, step, s');
    }
  }

  lemma StepKeepsClocks(limits: Limits, s: State, step: Step, s': State)
    requires LeaseClocks(s) && Takes(limits, s, step, s')
    ensures LeaseClocks(s')
  {
  }

  lemma StartsWell(s: State)
    requires s.lanes == [] && s.table == map[] && s.effects == [] && s.walkers == map[] && s.enqueuing == map[]
    ensures Inv(s) && LeaseClocks(s)
  {
    assert EffectsInv(s);
  }

  lemma {:induction false} RunKeepsInv(limits: Limits, run: seq<State>, i: nat)
    requires Run(limits, run) && i < |run|
    ensures Inv(run[i]) && LeaseClocks(run[i])
  {
    if i == 0 {
      StartsWell(run[0]);
    } else {
      RunKeepsInv(limits, run, i - 1);
      assert StepAt(limits, run, i);
      var step :| Takes(limits, run[i - 1], step, run[i]);
      hide Inv, Takes, LeaseClocks, LeasesOutlastWalkers;
      assert LeasesOutlastWalkers(limits, run[i - 1]);
      StepKeepsInv(limits, run[i - 1], step, run[i]);
      StepKeepsClocks(limits, run[i - 1], step, run[i]);
    }
  }

  /**
    With any number of concurrent or crashing replayers, at most one is at work in a lane,
    and it is at a letter only when every earlier letter of the lane has been replayed.
  */
  lemma OneAtATimeInLaneOrder(limits: Limits, run: seq<State>, i: nat, w: nat)
    requires Run(limits, run) && i < |run| && w in run[i].walkers && run[i].walkers[w].Walking?
    ensures var s := run[i]; var id := s.walkers[w].held.id;
            && s.walkers[w].rows != [] && s.walkers[w].rows[0] == id
            && id in s.table && id !in s.effects
            && (forall a: nat :: a < id && SameLane(s, a, id) ==> a in s.effects)
            && (forall u :: u in s.walkers && u != w && s.walkers[u].Walking? ==> !SameLane(s, s.walkers[u].held.id, id))
  {
    RunKeepsInv(limits, run, i);
    var s := run[i];
    WalkerIsAtHead(s, s.walkers[w]);
    forall u | u in s.walkers && u != w && s.walkers[u].Walking?
      ensures !SameLane(s, s.walkers[u].held.id, s.walkers[w].held.id)
    {
      OneWalkerPerLane(s, w, u);
    }
  }

  /**
    A letter's effects are committed exactly when it has been evicted, at most once, and the
    letters of a lane commit in the order they were enqueued in, none overtaking another.
  */
  lemma EffectsExactlyOnceInLaneOrder(limits: Limits, run: seq<State>, i: nat)
    requires Run(limits, run) && i < |run|
    ensures var s := run[i];
            && (forall id: nat :: id in s.effects <==> id < |s.lanes| && id !in s.table)
            && (forall a, b :: 0 <= a < b < |s.effects| ==> s.effects[a] != s.effects[b])
            && (forall a, b :: 0 <= a < b < |s.effects| && SameLane(s, s.effects[a], s.effects[b]) ==> s.effects[a] < s.effects[b])
            && (forall a: nat, b :: b in s.effects && a < b && SameLane(s, a, b) ==> a in s.effects)
  {
    RunKeepsInv(limits, run, i);
  }

  /** Only the end of an enqueue adds a letter, and no step moves one. */
  lemma OnlyEnqueueAdds(limits: Limits, s: State, step: Step, s': State, id: nat)
    requires Takes(limits, s, step, s') && !step.EndEnqueue? && id in s'.table
    ensures id in s.table && s'.table[id].lane == s.table[id].lane
  {
    hide Unleased, IsHead, IsLane;
  }

  /** What a lane holds, and what is about to be added to it. */
  function Load(s: State, lane: string): nat {
    |LaneOf(s.table, lane)| + if lane in s.enqueuing then 1 else 0
  }

  lemma StepKeepsLaneSize(limits: Limits, s: State, step: Step, s': State, lane: string)
    requires Takes(limits, s, step, s') && Load(s, lane) <= MaxLane(limits)
    ensures Load(s', lane) <= MaxLane(limits)
  {
    if step.EndEnqueue? {
      var more := if step.lane == lane then {|s.lanes|} else {};
      assert LaneOf(s'.table, lane) <= LaneOf(s.table, lane) + more;
      SmallerSet(LaneOf(s'.table, lane), LaneOf(s.table, lane) + more);
    } else {
      forall id | id in LaneOf(s'.table, lane)
        ensures id in LaneOf(s.table, lane)
      {
        OnlyEnqueueAdds(limits, s, step, s', id);
      }
      SmallerSet(LaneOf(s'.table, lane), LaneOf(s.table, lane));
      assert lane in s'.enqueuing ==> lane in s.enqueuing || (step.BeginEnqueue? && step.lane == lane) by {
        hide Unleased, IsHead, IsLane;
      }
      if step.BeginEnqueue? && step.lane == lane {
        hide NextIndex;
        assert Fits(limits, s.table, lane);
      }
    }
  }

  /** A lane may always be opened with one letter. */
  function MaxLane(limits: Limits): nat {
    if limits.letters == 0 then 1 else limits.letters
  }

  /** No lane ever grows past its limit. */
  lemma {:induction false} LanesStayWithinTheirLimit(limits: Limits, run: seq<State>, i: nat, lane: string)
    requires Run(limits, run) && i < |run|
    ensures Load(run[i], lane) <= MaxLane(limits)
  {
    if i == 0 {
      assert LaneOf(run[0].table, lane) == {};
    } else {
      LanesStayWithinTheirLimit(limits, run, i - 1, lane);
      assert StepAt(limits, run, i);
      var step :| Takes(limits, run[i - 1], step, run[i]);
      hide Takes;
      StepKeepsLaneSize(limits, run[i - 1], step, run[i], lane);
    }
  }

  /** The lanes there are, and those about to get a letter. */
  function LanesSoon(s: State): set<string> {
    LanesOf(s.table) + s.enqueuing.Keys
  }

  lemma OnlyBeginReads(limits: Limits, s: State, step: Step, s': State, lane: string)
    requires Takes(limits, s, step, s') && !step.BeginEnqueue? && lane in s'.enqueuing
    ensures lane in s.enqueuing
  {
    hide Unleased, IsHead, IsLane;
  }

  /** How many lanes there can be when up to `k` enqueues run at the same time. */
  function MostLanes(limits: Limits, k: nat): nat
    requires k >= 1
  {
    if limits.lanes == 0 then 0 else limits.lanes + k - 1
  }

  lemma BeginReads(limits: Limits, s: State, lane: string, index: nat, s': State)
    requires Takes(limits, s, BeginEnqueue(lane, index), s')
    ensures Fits(limits, s.table, lane) && s'.table == s.table && s'.enqueuing.Keys == s.enqueuing.Keys + {lane}
  {
    hide Fits, NextIndex;
  }

  lemma BeginKeepsLaneCount(limits: Limits, k: nat, s: State, lane: string, index: nat, s': State)
    requires Takes(limits, s, BeginEnqueue(lane, index), s') && 1 <= k && |s'.enqueuing| <= k && |LanesSoon(s)| <= MostLanes(limits, k)
    ensures |LanesSoon(s')| <= MostLanes(limits, k)
  {
    BeginReads(limits, s, lane, index, s');
    hide Takes;
    if |LaneOf(s.table, lane)| != 0 {
      var id :| id in LaneOf(s.table, lane);
      assert s.table[id].lane in LanesOf(s.table);
      assert LanesSoon(s') == LanesSoon(s);
    } else {
      assert |s'.enqueuing.Keys| == |s'.enqueuing|;
      assert |LanesOf(s.table)| < limits.lanes;
      hide LanesOf;
      UnionSize(LanesOf(s.table), s'.enqueuing.Keys);
    }
  }

  lemma UnionSize<T>(a: set<T>, b: set<T>)
    ensures |a + b| <= |a| + |b|
  {
    assert a + b == a + (b - a);
    SmallerSet(b - a, b);
  }

  lemma StepKeepsLaneCount(limits: Limits, k: nat, s: State, step: Step, s': State)
    requires Takes(limits, s, step, s') && 1 <= k && |s'.enqueuing| <= k && |LanesSoon(s)| <= MostLanes(limits, k)
    ensures |LanesSoon(s')| <= MostLanes(limits, k)
  {
    if step.BeginEnqueue? {
      BeginKeepsLaneCount(limits, k, s, step.lane, step.index, s');
    } else {
      forall lane | lane in LanesSoon(s')
        ensures lane in LanesSoon(s)
      {
        LaneWasThere(limits, s, step, s', lane);
      }
      hide Takes, LanesSoon;
      SmallerSet(LanesSoon(s'), LanesSoon(s));
    }
  }

  lemma LaneWasThere(limits: Limits, s: State, step: Step, s': State, lane: string)
    requires Takes(limits, s, step, s') && !step.BeginEnqueue? && lane in LanesSoon(s')
    ensures lane in LanesSoon(s)
  {
    if lane in s'.enqueuing {
      OnlyBeginReads(limits, s, step, s', lane);
    } else {
      var id :| id in s'.table && s'.table[id].lane == lane;
      if !step.EndEnqueue? {
        OnlyEnqueueAdds(limits, s, step, s', id);
        hide Takes;
        assert s.table[id].lane == lane;
      }
    }
  }

  /** Never more than `k` enqueues are between their reads and their insert. */
  ghost predicate AtOnce(run: seq<State>, k: nat) {
    forall i :: 0 <= i < |run| ==> |run[i].enqueuing| <= k
  }

  lemma {:induction false} LaneCountIsBounded(limits: Limits, k: nat, run: seq<State>, i: nat)
    requires Run(limits, run) && i < |run| && 1 <= k && AtOnce(run, k)
    ensures |LanesSoon(run[i])| <= MostLanes(limits, k)
  {
    hide Takes, LanesSoon, LeasesOutlastWalkers, MostLanes;
    if i == 0 {
      NoLanesYet(run[0]);
    } else {
      LaneCountIsBounded(limits, k, run, i - 1);
      assert StepAt(limits, run, i);
      var step :| Takes(limits, run[i - 1], step, run[i]);
      StepKeepsLaneCount(limits, k, run[i - 1], step, run[i]);
    }
  }

  lemma NoLanesYet(s: State)
    requires s.table == map[] && s.enqueuing == map[]
    ensures LanesSoon(s) == {}
  {
  }

  // --- as many lanes as that

  function Name(i: nat): (name: string)
    ensures |name| == i
  {
    seq(i, _ => 'a')
  }

  function Names(n: nat, m: nat): set<string> {
    set i: nat | n <= i < m :: Name(i)
  }

  lemma {:induction false} NamesSize(n: nat, m: nat)
    requires n <= m
    ensures |Names(n, m)| == m - n
  {
    if n < m {
      NamesSize(n, m - 1);
      assert Names(n, m) == Names(n, m - 1) + {Name(m - 1)};
      assert forall i: nat :: Name(i) == Name(m - 1) ==> i == m - 1;
    }
  }

  /** The first `n` lanes have a letter each, and the next ones up to `m` are about to get theirs. */
  function Opening(n: nat, m: nat): State {
    State(seq(n, i requires 0 <= i => Name(i)), map i: nat | i < n :: Letter(Name(i), 0, None), [], 0, map[], map lane | lane in Names(n, m) :: 0)
  }

  lemma OpeningLanes(n: nat, m: nat)
    ensures LanesOf(Opening(n, m).table) == Names(0, n) && |LanesOf(Opening(n, m).table)| == n
    ensures m >= n ==> |Opening(n, m).enqueuing| == m - n
  {
    var t := Opening(n, m).table;
    forall lane | lane in Names(0, n)
      ensures lane in LanesOf(t)
    {
      var i: nat :| i < n && lane == Name(i);
      assert t[i].lane == lane;
    }
    assert LanesOf(t) == Names(0, n);
    NamesSize(0, n);
    if m >= n {
      NamesSize(n, m);
      assert Opening(n, m).enqueuing.Keys == Names(n, m);
    }
  }

  /** Another enqueue finds room while fewer lanes than the limit are in the table, however many are under way. */
  lemma OpensOneMore(limits: Limits, n: nat, m: nat)
    requires n <= m && n < limits.lanes
    ensures NextState(limits, Opening(n, m), Opening(n, m + 1))
  {
    OpeningLanes(n, m);
    var s, s', lane := Opening(n, m), Opening(n, m + 1), Name(m);
    assert LaneOf(s.table, lane) == {} by {
      assert forall i: nat :: i < n ==> s.table[i].lane == Name(i) && |Name(i)| != |lane|;
    }
    hide LanesOf;
    assert Fits(limits, s.table, lane);
    assert NextIndex(s.table, lane, 0) by {
      assert forall id :: id in s.table && s.table[id].lane == lane ==> id in LaneOf(s.table, lane);
    }
    OpeningOneMore(n, m);
    hide Fits, NextIndex, LaneOf, Opening;
    assert Takes(limits, s, BeginEnqueue(lane, 0), s');
  }

  lemma OpeningOneMore(n: nat, m: nat)
    requires n <= m
    ensures var s := Opening(n, m);
            Name(m) !in s.enqueuing && Opening(n, m + 1) == s.(enqueuing := s.enqueuing[Name(m) := 0])
  {
    var s, s', lane := Opening(n, m), Opening(n, m + 1), Name(m);
    assert Names(n, m + 1) == Names(n, m) + {lane};
    assert forall i: nat :: n <= i < m ==> |Name(i)| != |lane|;
    assert lane !in Names(n, m);
    assert s'.enqueuing == s.enqueuing[lane := 0];
  }

  lemma InsertsOneMore(limits: Limits, n: nat, m: nat)
    requires n < m
    ensures NextState(limits, Opening(n, m), Opening(n + 1, m))
  {
    var s, lane := Opening(n, m), Name(n);
    assert lane in Names(n, m);
    assert forall i: nat :: Name(i) == lane ==> i == n;
    assert Names(n + 1, m) == Names(n, m) - {lane};
    var s' := Opening(n + 1, m);
    assert s'.lanes == s.lanes + [lane];
    assert s'.table == s.table[|s.lanes| := Letter(lane, 0, None)];
    assert s'.enqueuing == Enqueued(s, lane).enqueuing;
    assert Takes(limits, s, EndEnqueue(lane), s');
  }

  ghost predicate ReachedAtOnce(limits: Limits, k: nat, s: State) {
    exists run :: Run(limits, run) && AtOnce(run, k) && run[|run| - 1] == s
  }

  lemma OneStepOn(limits: Limits, k: nat, s: State, s': State)
    requires ReachedAtOnce(limits, k, s) && NextState(limits, s, s') && s'.walkers == map[] && |s'.enqueuing| <= k
    ensures ReachedAtOnce(limits, k, s')
  {
    hide NextState;
    var run :| Run(limits, run) && AtOnce(run, k) && run[|run| - 1] == s;
    var longer := run + [s'];
    forall i: nat
      ensures StepAt(limits, longer, i)
    {
      assert StepAt(limits, run, i);
    }
    assert Run(limits, longer) && AtOnce(longer, k) && longer[|longer| - 1] == s';
  }

  /** All lanes but the last one by one, then `k` at once. */
  lemma {:induction false} OpeningIsReached(limits: Limits, k: nat, n: nat, m: nat)
    requires 1 <= k && 1 <= limits.lanes && n <= m <= n + k && m <= limits.lanes + k - 1
    ensures ReachedAtOnce(limits, k, Opening(n, m))
    decreases n + m
  {
    hide NextState, Opening, ReachedAtOnce;
    OpeningLanes(n, m);
    if m == 0 {
      OpeningStarts(limits, k);
    } else if n < limits.lanes && n < m {
      OpeningIsReached(limits, k, n, m - 1);
      OpensOneMore(limits, n, m - 1);
      NobodyWalks(n, m);
      OneStepOn(limits, k, Opening(n, m - 1), Opening(n, m));
    } else {
      OpeningIsReached(limits, k, n - 1, m);
      InsertsOneMore(limits, n - 1, m);
      NobodyWalks(n, m);
      OneStepOn(limits, k, Opening(n - 1, m), Opening(n, m));
    }
  }

  lemma NobodyWalks(n: nat, m: nat)
    ensures Opening(n, m).walkers == map[]
  {
  }

  lemma OpeningStarts(limits: Limits, k: nat)
    ensures ReachedAtOnce(limits, k, Opening(0, 0))
  {
    var run := [Opening(0, 0)];
    assert Names(0, 0) == {};
    assert Run(limits, run) && AtOnce(run, k) && run[|run| - 1] == Opening(0, 0);
  }

  /** The bound is reached: overlapping enqueues to different lanes all find room for the last one. */
  lemma OverlappingEnqueuesExceedTheLanes(limits: Limits, k: nat) returns (s: State)
    requires 1 <= k && 1 <= limits.lanes
    ensures ReachedAtOnce(limits, k, s) && |LanesOf(s.table)| == limits.lanes + k - 1
  {
    var most := limits.lanes + k - 1;
    s := Opening(most, most);
    OpeningIsReached(limits, k, most, most);
    OpeningLanes(most, most);
  }

  ghost predicate LanesNeverExceed(limits: Limits, k: nat) {
    forall s :: ReachedAtOnce(limits, k, s) ==> |LanesOf(s.table)| <= limits.lanes
  }

  /** With up to `k` enqueues at the same time the limit on lanes is kept in all runs if and only if `k` is one or no lane is allowed. */
  lemma LaneLimitExactly(limits: Limits, k: nat)
    requires 1 <= k
    ensures LanesNeverExceed(limits, k) <==> k == 1 || limits.lanes == 0
  {
    if k == 1 || limits.lanes == 0 {
      forall s | ReachedAtOnce(limits, k, s)
        ensures |LanesOf(s.table)| <= limits.lanes
      {
        var run :| Run(limits, run) && AtOnce(run, k) && run[|run| - 1] == s;
        LaneCountIsBounded(limits, k, run, |run| - 1);
        SmallerSet(LanesOf(s.table), LanesSoon(s));
      }
    } else {
      var s := OverlappingEnqueuesExceedTheLanes(limits, k);
    }
  }

  // ---------------------------------------------------------------------------
  // One replayer undisturbed
  // ---------------------------------------------------------------------------

  /** What the application brings: which letters fail, which lanes it wants, and the clock at each claim. */
  datatype Outside = Outside(fails: nat -> bool, wants: seq<nat> -> bool, now: nat -> int)

  datatype Replayed = Replayed(table: Table, effects: seq<nat>, found: bool)

  /** A walk head to tail: stops at a failing letter, handing it back, or when the next one cannot be claimed. */
  function Walk(limits: Limits, out: Outside, table: Table, effects: seq<nat>, rows: seq<nat>, held: Hold): Replayed
    decreases |rows|
  {
    if rows == [] then Replayed(table, effects, true)
    else if out.fails(rows[0]) then Replayed(ReleaseOn(table, held), effects, true)
    else if |rows| > 1 && Claimable(limits, table, Hold(rows[1], out.now(rows[1]))) then
      var next := Hold(rows[1], out.now(rows[1]));
      Walk(limits, out, EvictOn(ClaimOn(table, next), rows[0]), effects + [rows[0]], rows[1..], next)
    else Replayed(EvictOn(table, rows[0]), effects + [rows[0]], true)
  }

  predicate Claimable(limits: Limits, table: Table, hold: Hold) {
    hold.id in table && Unleased(limits, table[hold.id], hold.lease)
  }

  /** The first candidate that can be claimed and is still wanted once its lane has been read again. */
  function Process(limits: Limits, out: Outside, lanes: (Table, nat) -> seq<nat>, table: Table, effects: seq<nat>, lease: int, candidates: seq<nat>): Replayed
    decreases |candidates|
  {
    if candidates == [] then Replayed(table, effects, false)
    else
      var hold := Hold(candidates[0], lease);
      if !Claimable(limits, table, hold) then Process(limits, out, lanes, table, effects, lease, candidates[1..])
      else
        var claimed := ClaimOn(table, hold);
        var rows := lanes(claimed, hold.id);
        if rows != [] && out.wants(rows) then Walk(limits, out, claimed, effects, rows, hold)
        else Process(limits, out, lanes, ReleaseOn(claimed, hold), effects, lease, candidates[1..])
  }

  class Replayer {
    const limits: Limits
    var table: Table
    var effects: seq<nat>

    constructor (limits: Limits, table: Table)
      ensures this.limits == limits && this.table == table && effects == []
    {
      this.limits, this.table, effects := limits, table, [];
    }

    method Claim(hold: Hold) returns (ok: bool)
      modifies this`table
      ensures ok == Claimable(limits, old(table), hold) && table == if ok then ClaimOn(old(table), hold) else old(table)
    {
      ok := hold.id in table && (table[hold.id].started.None? || table[hold.id].started.value <= hold.lease - limits.lease);
      if ok {
        table := table[hold.id := table[hold.id].(started := Some(hold.lease))];
      }
    }

    method Release(hold: Hold)
      modifies this`table
      ensures table == ReleaseOn(old(table), hold)
    {
      if hold.id in table && table[hold.id].started == Some(hold.lease) {
        table := table[hold.id := table[hold.id].(started := None)];
      }
    }

    /** The loop over the letters of a claimed lane. */
    method WalkLane(out: Outside, rows: seq<nat>, first: Hold)
      modifies this
      ensures Replayed(table, effects, true) == Walk(limits, out, old(table), old(effects), rows, first)
    {
      var held, i := first, 0;
      assert rows[0..] == rows;
      while i < |rows|
        invariant 0 <= i <= |rows|
        invariant Walk(limits, out, table, effects, rows[i..], held) == Walk(limits, out, old(table), old(effects), rows, first)
      {
        var row, next: Option<Hold> := rows[i], None;
        if out.fails(row) {
          Release(held);
          return;
        }
        if i + 1 < |rows| {
          var taken := Hold(rows[i + 1], out.now(rows[i + 1]));
          var ok := Claim(taken);
          if ok {
            next := Some(taken);
          }
        }
        table := map other | other in table && other != row :: table[other];
        effects := effects + [row];
        assert rows[i..][1..] == rows[i + 1..];
        if next.None? {
          return;
        }
        held := next.value;
        i := i + 1;
      }
    }

    /** The loop over the candidates; `lanes` reads a letter's lane. */
    method ProcessOne(out: Outside, lanes: (Table, nat) -> seq<nat>, lease: int, candidates: seq<nat>) returns (found: bool)
      modifies this
      ensures Replayed(table, effects, found) == Process(limits, out, lanes, old(table), old(effects), lease, candidates)
    {
      var i := 0;
      assert candidates[0..] == candidates;
      while i < |candidates|
        invariant 0 <= i <= |candidates|
        invariant Process(limits, out, lanes, table, effects, lease, candidates[i..]) ==
                  Process(limits, out, lanes, old(table), old(effects), lease, candidates)
      {
        var hold := Hold(candidates[i], lease);
        assert candidates[i..][1..] == candidates[i + 1..];
        var ok := Claim(hold);
        if ok {
          var rows := lanes(table, hold.id);
          if |rows| > 0 && out.wants(rows) {
            WalkLane(out, rows, hold);
            return true;
          }
          Release(hold);
        }
        i := i + 1;
      }
      found := false;
    }
  }

  /** One state leads to another by steps of the protocol. */
  ghost predicate Leads(limits: Limits, s: State, s': State) {
    exists run :: Path(limits, run) && run[0] == s && run[|run| - 1] == s'
  }

  ghost predicate Path(limits: Limits, run: seq<State>) {
    |run| > 0 && forall i: nat :: StepAt(limits, run, i)
  }

  lemma LeadsFirst(limits: Limits, s: State, step: Step, t: State, s': State)
    requires Takes(limits, s, step, t) && Leads(limits, t, s')
    ensures Leads(limits, s, s')
  {
    var run := [s, t];
    assert NextState(limits, s, t);
    hide NextState, Takes;
    assert forall i: nat :: StepAt(limits, run, i);
    assert Path(limits, run) && run[0] == s && run[|run| - 1] == t;
    hide Path;
    LeadsOn(limits, s, t, s');
  }

  lemma LeadsToItself(limits: Limits, s: State)
    ensures Leads(limits, s, s)
  {
    assert Path(limits, [s]) && [s][0] == s;
  }

  /** The loop is a run of the protocol: undisturbed, a walker does exactly what the steps let it do. */
  lemma {:induction false} WalkIsARun(limits: Limits, out: Outside, s: State, w: nat, rows: seq<nat>, held: Hold)
    requires w in s.walkers && s.walkers[w] == Walking(rows, held, None, false) && rows != []
    requires forall id :: out.now(id) <= s.clock
    ensures var r := Walk(limits, out, s.table, s.effects, rows, held);
            Leads(limits, s, Gone(s, w).(table := r.table, effects := r.effects))
    decreases |rows|
  {
    hide Leads, Claimable, Takes;
    var r := Walk(limits, out, s.table, s.effects, rows, held);
    var end := Gone(s, w).(table := r.table, effects := r.effects);
    if out.fails(rows[0]) {
      FailedWalk(limits, s, w, held, end);
    } else if |rows| == 1 {
      CommitsAndStops(limits, s, w, rows, held, false);
      LeadsToItself(limits, end);
      LeadsFirst(limits, s, CommitLetter(w), end, end);
    } else {
      var next := Hold(rows[1], out.now(rows[1]));
      var ok := Claimable(limits, s.table, next);
      Asks(limits, s, w, rows, held, next);
      var asked := AfterAsking(s, w, rows, held, next, ok);
      if ok {
        CommitsAndGoesOn(limits, asked, w, rows, held, next);
        var moved := Put(asked, w, Walking(rows[1..], next, None, false)).(table := EvictOn(asked.table, rows[0]), effects := s.effects + [rows[0]]);
        WalkIsARun(limits, out, moved, w, rows[1..], next);
        assert Gone(moved, w).(table := r.table, effects := r.effects) == end;
        LeadsFirst(limits, asked, CommitLetter(w), moved, end);
      } else {
        CommitsAndStops(limits, asked, w, rows, held, true);
        assert Gone(asked, w).(table := r.table, effects := r.effects) == end;
        LeadsToItself(limits, end);
        LeadsFirst(limits, asked, CommitLetter(w), end, end);
      }
      LeadsFirst(limits, s, ClaimNext(w, next.lease, ok), asked, end);
    }
  }

  function AfterAsking(s: State, w: nat, rows: seq<nat>, held: Hold, next: Hold, ok: bool): State
    requires ok ==> next.id in s.table
  {
    Put(s, w, Walking(rows, held, if ok then Some(next) else None, true)).(table := if ok then ClaimOn(s.table, next) else s.table)
  }

  lemma Asks(limits: Limits, s: State, w: nat, rows: seq<nat>, held: Hold, next: Hold)
    requires w in s.walkers && s.walkers[w] == Walking(rows, held, None, false) && |rows| > 1 && next.id == rows[1] && next.lease <= s.clock
    ensures var ok := Claimable(limits, s.table, next);
            (ok ==> next.id in s.table) && Takes(limits, s, ClaimNext(w, next.lease, ok), AfterAsking(s, w, rows, held, next, ok))
  {
  }

  lemma CommitsAndGoesOn(limits: Limits, s: State, w: nat, rows: seq<nat>, held: Hold, next: Hold)
    requires w in s.walkers && s.walkers[w] == Walking(rows, held, Some(next), true) && |rows| > 1
    ensures Takes(limits, s, CommitLetter(w),
                  Put(s, w, Walking(rows[1..], next, None, false)).(table := EvictOn(s.table, rows[0]), effects := s.effects + [rows[0]]))
  {
  }

  lemma CommitsAndStops(limits: Limits, s: State, w: nat, rows: seq<nat>, held: Hold, asked: bool)
    requires w in s.walkers && s.walkers[w] == Walking(rows, held, None, asked) && rows != [] && (|rows| > 1 ==> asked)
    ensures Takes(limits, s, CommitLetter(w), Gone(s, w).(table := EvictOn(s.table, rows[0]), effects := s.effects + [rows[0]]))
  {
  }

  lemma FailedWalk(limits: Limits, s: State, w: nat, held: Hold, end: State)
    requires w in s.walkers && s.walkers[w].Walking? && s.walkers[w].held == held && !s.walkers[w].asked
    requires end == Gone(s, w).(table := ReleaseOn(s.table, held))
    ensures Leads(limits, s, end)
  {
    hide Leads;
    var a := Put(s, w, Releasing([held], 0, []));
    var b := Put(a, w, Releasing([], 0, [])).(table := ReleaseOn(s.table, held));
    assert [held][1..] == [];
    assert Takes(limits, a, Release(w, true), b);
    assert Gone(b, w) == end;
    assert Takes(limits, b, Leave(w), end);
    LeadsToItself(limits, end);
    LeadsFirst(limits, b, Leave(w), end, end);
    LeadsFirst(limits, a, Release(w, true), b, end);
    assert Takes(limits, s, LetterFails(w), a);
    LeadsFirst(limits, s, LetterFails(w), a, end);
  }

  /** Reading a lane gives its rows in index order. */
  ghost predicate ReadsLanes(lanes: (Table, nat) -> seq<nat>) {
    forall table: Table, id: nat :: id in table && OwnPlaces(table) ==> IsLane(table, table[id].lane, lanes(table, id))
  }

  /** No two letters of a lane have one index. */
  ghost predicate OwnPlaces(table: Table) {
    forall a, b :: a in table && b in table && a != b && table[a].lane == table[b].lane ==> table[a].index != table[b].index
  }

  ghost predicate LanesKept(s: State) {
    OwnPlaces(s.table) && forall id :: id in s.table ==> id < |s.lanes| && s.table[id].lane == s.lanes[id]
  }

  /** The walker is gone and has left these effects. */
  function Left(s: State, w: nat, r: Replayed): State {
    Gone(s, w).(table := r.table, effects := r.effects)
  }

  lemma SameLeft(s: State, w: nat, v: Walker, table: Table, r: Replayed)
    ensures Left(Put(s, w, v).(table := table), w, r) == Left(s, w, r)
  {
  }

  /** The same for the whole of `process`, from its candidates on. */
  lemma {:induction false} ProcessIsARun(limits: Limits, out: Outside, lanes: (Table, nat) -> seq<nat>, s: State, w: nat, lease: int, candidates: seq<nat>)
    requires w in s.walkers && s.walkers[w] == Trying(lease, candidates) && LanesKept(s) && ReadsLanes(lanes)
    requires forall id :: out.now(id) <= s.clock
    ensures Leads(limits, s, Left(s, w, Process(limits, out, lanes, s.table, s.effects, lease, candidates)))
    decreases |candidates|, 1
  {
    hide Leads, ReadsLanes, LanesKept, SameLetters;
    var r := Process(limits, out, lanes, s.table, s.effects, lease, candidates);
    if candidates == [] {
      assert Takes(limits, s, Leave(w), Left(s, w, r));
      LeadsToItself(limits, Left(s, w, r));
      LeadsFirst(limits, s, Leave(w), Left(s, w, r), Left(s, w, r));
    } else if Claimable(limits, s.table, Hold(candidates[0], lease)) {
      ClaimedIsARun(limits, out, lanes, s, w, lease, candidates);
    } else {
      var t := Put(s, w, Trying(lease, candidates[1..]));
      assert Takes(limits, s, TryClaim(w, false), t);
      SameLanes(s, t);
      ProcessIsARun(limits, out, lanes, t, w, lease, candidates[1..]);
      SameLeft(s, w, Trying(lease, candidates[1..]), s.table, r);
      LeadsFirst(limits, s, TryClaim(w, false), t, Left(s, w, r));
    }
  }

  lemma {:induction false} ClaimedIsARun(limits: Limits, out: Outside, lanes: (Table, nat) -> seq<nat>, s: State, w: nat, lease: int, candidates: seq<nat>)
    requires w in s.walkers && s.walkers[w] == Trying(lease, candidates) && LanesKept(s) && ReadsLanes(lanes)
    requires candidates != [] && Claimable(limits, s.table, Hold(candidates[0], lease))
    requires forall id :: out.now(id) <= s.clock
    ensures Leads(limits, s, Left(s, w, Process(limits, out, lanes, s.table, s.effects, lease, candidates)))
    decreases |candidates|, 0
  {
    hide Leads, ReadsLanes, IsLane, LanesKept;
    var r := Process(limits, out, lanes, s.table, s.effects, lease, candidates);
    var end := Left(s, w, r);
    var hold, rest := Hold(candidates[0], lease), candidates[1..];
    var t := Put(s, w, Judging(lease, hold, rest)).(table := ClaimOn(s.table, hold));
    assert Takes(limits, s, TryClaim(w, true), t);
    SameLanes(s, t);
    SameLeft(s, w, Judging(lease, hold, rest), t.table, r);
    var rows := lanes(t.table, hold.id);
    LaneRead(t, lanes, hold.id);
    hide Left, SameLetters;
    if rows != [] && out.wants(rows) {
      var u := Put(t, w, Walking(rows, hold, None, false));
      assert Takes(limits, t, ReadLane(w, rows, true), u);
      hide Takes;
      WalkIsARun(limits, out, u, w, rows, hold);
      assert Left(u, w, r) == end by {
        SameLeft(t, w, Walking(rows, hold, None, false), t.table, r);
      }
      LeftIs(u, w, r);
      LeadsFirst(limits, t, ReadLane(w, rows, true), u, end);
    } else {
      hide Takes;
      HandsBack(limits, t, w, lease, hold, rest, rows);
      var u := Put(t, w, Trying(lease, rest)).(table := ReleaseOn(t.table, hold));
      ReleasedLanes(t, u, hold);
      ProcessIsARun(limits, out, lanes, u, w, lease, rest);
      SameLeft(t, w, Trying(lease, rest), u.table, r);
      LeadsOn(limits, t, u, end);
    }
    LeadsFirst(limits, s, TryClaim(w, true), t, end);
  }

  lemma LeftIs(s: State, w: nat, r: Replayed)
    ensures Left(s, w, r) == Gone(s, w).(table := r.table, effects := r.effects)
  {
  }

  lemma ReleasedLanes(s: State, s': State, hold: Hold)
    requires LanesKept(s) && s'.lanes == s.lanes && s'.table == ReleaseOn(s.table, hold)
    ensures LanesKept(s')
  {
    SameLanes(s, s');
  }

  lemma SameLanes(s: State, s': State)
    requires LanesKept(s) && s'.lanes == s.lanes && SameLetters(s.table, s'.table)
    ensures LanesKept(s')
  {
  }

  lemma LaneRead(s: State, lanes: (Table, nat) -> seq<nat>, id: nat)
    requires LanesKept(s) && ReadsLanes(lanes) && id in s.table
    ensures id < |s.lanes| && IsLane(s.table, s.lanes[id], lanes(s.table, id))
  {
    hide IsLane;
  }

  /** A lane that is not wanted after all is handed back, and the next candidate tried. */
  lemma HandsBack(limits: Limits, s: State, w: nat, lease: int, hold: Hold, rest: seq<nat>, rows: seq<nat>)
    requires w in s.walkers && s.walkers[w] == Judging(lease, hold, rest)
    requires hold.id < |s.lanes| && IsLane(s.table, s.lanes[hold.id], rows)
    ensures Leads(limits, s, Put(s, w, Trying(lease, rest)).(table := ReleaseOn(s.table, hold)))
  {
    hide Leads, IsLane;
    var a := Put(s, w, Releasing([hold], lease, rest));
    assert [hold][1..] == [];
    var b := Put(a, w, Releasing([], lease, rest)).(table := ReleaseOn(s.table, hold));
    var c := Put(b, w, Trying(lease, rest));
    var end := Put(s, w, Trying(lease, rest)).(table := ReleaseOn(s.table, hold));
    assert c.walkers == end.walkers;
    assert Takes(limits, b, Release(w, true), c);
    LeadsToItself(limits, end);
    LeadsFirst(limits, b, Release(w, true), c, end);
    assert Takes(limits, a, Release(w, true), b);
    LeadsFirst(limits, a, Release(w, true), b, end);
    assert Takes(limits, s, ReadLane(w, rows, false), a);
    LeadsFirst(limits, s, ReadLane(w, rows, false), a, end);
  }

  lemma {:induction false} LeadsOn(limits: Limits, s: State, t: State, u: State)
    requires Leads(limits, s, t) && Leads(limits, t, u)
    ensures Leads(limits, s, u)
  {
    var a :| Path(limits, a) && a[0] == s && a[|a| - 1] == t;
    var b :| Path(limits, b) && b[0] == t && b[|b| - 1] == u;
    var both := a + b[1..];
    hide NextState;
    forall i: nat
      ensures StepAt(limits, both, i)
    {
      if i < |a| {
        assert StepAt(limits, a, i);
      } else if i < |both| {
        assert StepAt(limits, b, i - |a| + 1);
        assert both[i] == b[i - |a| + 1] && both[i - 1] == b[i - |a|];
      }
    }
    assert Path(limits, both) && both[0] == s && both[|both| - 1] == u;
  }

  // ---------------------------------------------------------------------------
  // When a letter is taken in
  // ---------------------------------------------------------------------------

  lemma {:induction false} LastOf(table: Table, ids: set<nat>) returns (last: nat)
    requires ids != {} && forall id :: id in ids ==> id in table
    ensures last in ids && forall id :: id in ids ==> table[id].index <= table[last].index
    decreases |ids|
  {
    var id :| id in ids;
    var rest := ids - {id};
    if rest == {} {
      last := id;
    } else {
      var other := LastOf(table, rest);
      last := if table[other].index < table[id].index then id else other;
    }
    assert forall k :: k in ids ==> k == id || k in rest;
  }

  lemma NextIndexExists(table: Table, lane: string) returns (index: nat)
    ensures NextIndex(table, lane, index)
    ensures index == 0 <==> LaneOf(table, lane) == {}
  {
    var ids := LaneOf(table, lane);
    if ids == {} {
      index := 0;
      assert forall id :: id in table && table[id].lane == lane ==> id in ids;
    } else {
      var last := LastOf(table, ids);
      index := table[last].index + 1;
      assert forall id :: id in table && table[id].lane == lane ==> id in ids;
    }
  }

  /**
    While nobody else is enqueueing to the lane, a letter is taken in if and only if its lane is
    new and there are fewer lanes than allowed, or its lane is there and has fewer letters than
    allowed; it is then the last of its lane.
  */
  lemma EnqueueExactly(limits: Limits, s: State, lane: string)
    requires lane !in s.enqueuing
    ensures (exists index, s' :: Takes(limits, s, BeginEnqueue(lane, index), s')) <==>
            if exists id :: id in s.table && s.table[id].lane == lane then |LaneOf(s.table, lane)| < limits.letters
            else |LanesOf(s.table)| < limits.lanes
  {
    var index := NextIndexExists(s.table, lane);
    var s' := s.(enqueuing := s.enqueuing[lane := index]);
    if id :| id in s.table && s.table[id].lane == lane {
      assert id in LaneOf(s.table, lane);
    }
    if Fits(limits, s.table, lane) {
      assert Takes(limits, s, BeginEnqueue(lane, index), s');
    }
  }

  /** The letter goes into its lane behind all others there, unleased, and nothing else changes in the table. */
  lemma EnqueuedIsLast(limits: Limits, run: seq<State>, i: nat, lane: string, s': State)
    requires Run(limits, run) && i < |run| && Takes(limits, run[i], EndEnqueue(lane), s')
    ensures var s, id := run[i], |run[i].lanes|;
            && id !in s.table && s'.table.Keys == s.table.Keys + {id} && (forall k :: k in s.table ==> s'.table[k] == s.table[k])
            && s'.table[id].lane == lane && s'.table[id].started == None
            && forall k :: k in s.table && s.table[k].lane == lane ==> s.table[k].index < s'.table[id].index
  {
    RunKeepsInv(limits, run, i);
    hide HoldInv, CandidateInv, WalksInv, EffectsInv, FrontInv;
  }

  // ---------------------------------------------------------------------------
  // What a walk comes to
  // ---------------------------------------------------------------------------

  /** A letter handed back is free at once, and nothing else is touched. */
  lemma ReleasedIsFree(limits: Limits, table: Table, hold: Hold, now: int)
    requires hold.id in table
    ensures table[hold.id].started == Some(hold.lease) ==> Claimable(limits, ReleaseOn(table, hold), Hold(hold.id, now))
    ensures table[hold.id].started != Some(hold.lease) ==> ReleaseOn(table, hold) == table
    ensures ReleaseOn(table, hold).Keys == table.Keys && SameLetters(table, ReleaseOn(table, hold))
    ensures forall id :: id in table && id != hold.id ==> ReleaseOn(table, hold)[id] == table[id]
  {
  }

  /** A letter claimed is held under that lease until it has run its time. */
  lemma ClaimedIsHeld(limits: Limits, table: Table, hold: Hold, now: int)
    requires Claimable(limits, table, hold)
    ensures var t := ClaimOn(table, hold);
            && t.Keys == table.Keys && SameLetters(table, t) && t[hold.id].started == Some(hold.lease)
            && (Claimable(limits, t, Hold(hold.id, now)) <==> hold.lease + limits.lease <= now)
            && forall id :: id in table && id != hold.id ==> t[id] == table[id]
  {
  }

  ghost predicate AllDifferent(rows: seq<nat>) {
    forall i, j :: 0 <= i < j < |rows| ==> rows[i] != rows[j]
  }

  /** The walk goes no further than this letter: it fails, it is the last, or the next one is not to be had. */
  predicate StopsAt(limits: Limits, out: Outside, table: Table, rows: seq<nat>, k: nat)
    requires k < |rows|
  {
    || out.fails(rows[k]) || k == |rows| - 1
    || !Claimable(limits, table, Hold(rows[k + 1], out.now(rows[k + 1])))
  }

  ghost predicate FirstStop(limits: Limits, out: Outside, table: Table, rows: seq<nat>, k: nat) {
    k < |rows| && StopsAt(limits, out, table, rows, k) && forall j :: 0 <= j < k ==> !StopsAt(limits, out, table, rows, j)
  }

  /** How many letters are replayed: those in front of the one it stops at, and that one unless it fails. */
  function Done(out: Outside, rows: seq<nat>, k: nat): nat
    requires k < |rows|
  {
    if out.fails(rows[k]) then k else k + 1
  }

  /** What is left: the letters replayed are gone, a failed one is free, and those never reached are as they were. */
  ghost predicate WalkLeaves(out: Outside, table: Table, rows: seq<nat>, k: nat, left: Table)
    requires k < |rows|
  {
    && (forall id :: id in left <==> id in table && id !in rows[..Done(out, rows, k)])
    && (out.fails(rows[k]) ==> rows[k] in left && left[rows[k]].started == None)
    && (forall id :: id in left && id !in rows[..k + 1] ==> left[id] == table[id])
    && (forall id :: id in left ==> left[id].lane == table[id].lane && left[id].index == table[id].index)
  }

  lemma FirstStopIsThere(limits: Limits, out: Outside, table: Table, rows: seq<nat>) returns (k: nat)
    requires rows != []
    ensures FirstStop(limits, out, table, rows, k)
  {
    k := 0;
    while !StopsAt(limits, out, table, rows, k)
      invariant k < |rows| && forall j :: 0 <= j < k ==> !StopsAt(limits, out, table, rows, j)
      decreases |rows| - k
    {
      k := k + 1;
    }
  }

  lemma StopMoves(limits: Limits, out: Outside, table: Table, rows: seq<nat>, k: nat, table': Table)
    requires AllDifferent(rows) && FirstStop(limits, out, table, rows, k) && k > 0
    requires forall id :: id != rows[0] && id != rows[1] ==> (id in table' <==> id in table) && (id in table ==> table'[id] == table[id])
    ensures AllDifferent(rows[1..]) && FirstStop(limits, out, table', rows[1..], k - 1)
  {
    var rest := rows[1..];
    forall j | 0 <= j < |rest|
      ensures StopsAt(limits, out, table', rest, j) <==> StopsAt(limits, out, table, rows, j + 1)
    {
      assert rest[j] == rows[j + 1];
      if j + 1 < |rest| {
        assert rest[j + 1] == rows[j + 2] && rows[j + 2] != rows[0] && rows[j + 2] != rows[1];
      }
    }
  }

  lemma WalkEndsHere(limits: Limits, out: Outside, table: Table, effects: seq<nat>, rows: seq<nat>, held: Hold)
    requires rows != [] && StopsAt(limits, out, table, rows, 0)
    requires rows[0] == held.id && held.id in table && table[held.id].started == Some(held.lease)
    ensures var r := Walk(limits, out, table, effects, rows, held);
            r.effects == effects + rows[..Done(out, rows, 0)] && WalkLeaves(out, table, rows, 0, r.table)
  {
    assert rows[..1] == [rows[0]] && rows[..0] == [];
    assert effects + [] == effects;
  }

  lemma WalkGoesOn(limits: Limits, out: Outside, table: Table, effects: seq<nat>, rows: seq<nat>, held: Hold)
    requires rows != [] && !StopsAt(limits, out, table, rows, 0)
    ensures var next := Hold(rows[1], out.now(rows[1]));
            && next.id in table
            && Walk(limits, out, table, effects, rows, held) ==
               Walk(limits, out, EvictOn(ClaimOn(table, next), rows[0]), effects + [rows[0]], rows[1..], next)
  {
    hide ClaimOn, EvictOn;
  }

  lemma {:induction false} WalkFinds(limits: Limits, out: Outside, table: Table, effects: seq<nat>, rows: seq<nat>, held: Hold)
    ensures Walk(limits, out, table, effects, rows, held).found
    decreases |rows|
  {
    if rows != [] && !StopsAt(limits, out, table, rows, 0) {
      var next := Hold(rows[1], out.now(rows[1]));
      WalkFinds(limits, out, EvictOn(ClaimOn(table, next), rows[0]), effects + [rows[0]], rows[1..], next);
    }
  }

  /**
    A walk replays the letters up to the first that fails, or behind which none can be claimed, or
    the last: exactly those have their effects committed, in order, and are gone; a letter that
    failed keeps its place and is free again; the others are untouched.
  */
  lemma {:induction false} WalkExactly(limits: Limits, out: Outside, table: Table, effects: seq<nat>, rows: seq<nat>, held: Hold, k: nat)
    requires AllDifferent(rows) && FirstStop(limits, out, table, rows, k)
    requires rows[0] == held.id && held.id in table && table[held.id].started == Some(held.lease)
    ensures var r := Walk(limits, out, table, effects, rows, held);
            r.effects == effects + rows[..Done(out, rows, k)] && WalkLeaves(out, table, rows, k, r.table)
    decreases |rows|
  {
    hide Walk, WalkLeaves;
    if k == 0 {
      WalkEndsHere(limits, out, table, effects, rows, held);
    } else {
      var next, rest := Hold(rows[1], out.now(rows[1])), rows[1..];
      OneEvicted(limits, out, table, rows, k);
      hide FirstStop, ClaimOn, EvictOn, StopsAt, Claimable;
      WalkGoesOn(limits, out, table, effects, rows, held);
      var table' := EvictOn(ClaimOn(table, next), rows[0]);
      WalkExactly(limits, out, table', effects + [rows[0]], rest, next, k - 1);
      WalkLeavesMore(out, table, rows, k, next, Walk(limits, out, table', effects + [rows[0]], rest, next).table);
      hide AllDifferent;
      var n := Done(out, rows, k);
      assert rest[k - 1] == rows[k] && Done(out, rest, k - 1) == n - 1;
      assert [rows[0]] + rest[..n - 1] == rows[..n];
      assert effects + [rows[0]] + rest[..n - 1] == effects + ([rows[0]] + rest[..n - 1]);
    }
  }

  /** Where a walk stands once the first letter is gone and the second in hand. */
  lemma OneEvicted(limits: Limits, out: Outside, table: Table, rows: seq<nat>, k: nat)
    requires AllDifferent(rows) && FirstStop(limits, out, table, rows, k) && k > 0
    ensures !StopsAt(limits, out, table, rows, 0)
    ensures var next := Hold(rows[1], out.now(rows[1]));
            && next.id in table
            && var table' := EvictOn(ClaimOn(table, next), rows[0]);
               && next.id in table' && table'[next.id].started == Some(next.lease)
               && AllDifferent(rows[1..]) && FirstStop(limits, out, table', rows[1..], k - 1)
  {
    assert !StopsAt(limits, out, table, rows, 0);
    assert rows[1] != rows[0];
    StopMoves(limits, out, table, rows, k, EvictOn(ClaimOn(table, Hold(rows[1], out.now(rows[1]))), rows[0]));
  }

  lemma WalkLeavesMore(out: Outside, table: Table, rows: seq<nat>, k: nat, next: Hold, left: Table)
    requires AllDifferent(rows) && 0 < k < |rows| && next.id == rows[1] && next.id in table
    requires WalkLeaves(out, EvictOn(ClaimOn(table, next), rows[0]), rows[1..], k - 1, left)
    ensures WalkLeaves(out, table, rows, k, left)
  {
    var rest, n := rows[1..], Done(out, rows, k);
    assert rest[k - 1] == rows[k] && Done(out, rest, k - 1) == n - 1;
    assert rows[..n] == [rows[0]] + rest[..n - 1];
    assert rows[..k + 1] == [rows[0]] + rest[..k];
    assert rest[0] == rows[1] && rest[0] in rest[..k];
  }

  // ---------------------------------------------------------------------------
  // What processing comes to
  // ---------------------------------------------------------------------------

  /** Reading a lane does not look at leases. */
  ghost predicate IgnoresLeases(lanes: (Table, nat) -> seq<nat>) {
    forall a: Table, b: Table, id: nat :: SameLetters(a, b) ==> lanes(a, id) == lanes(b, id)
  }

  /** The candidate can be claimed and its lane is wanted. */
  predicate Suits(limits: Limits, out: Outside, lanes: (Table, nat) -> seq<nat>, table: Table, lease: int, id: nat) {
    Claimable(limits, table, Hold(id, lease)) && lanes(table, id) != [] && out.wants(lanes(table, id))
  }

  /** Those that could be claimed have been handed back; the others are as they were. */
  function HandedBack(limits: Limits, table: Table, lease: int, ids: seq<nat>): Table {
    map id | id in table :: if id in ids && Claimable(limits, table, Hold(id, lease)) then table[id].(started := None) else table[id]
  }

  lemma NothingHandedBack(limits: Limits, table: Table, lease: int)
    ensures HandedBack(limits, table, lease, []) == table
  {
  }

  ghost predicate FirstSuits(limits: Limits, out: Outside, lanes: (Table, nat) -> seq<nat>, table: Table, lease: int, candidates: seq<nat>, j: nat) {
    && j < |candidates| && Suits(limits, out, lanes, table, lease, candidates[j])
    && forall i :: 0 <= i < j ==> !Suits(limits, out, lanes, table, lease, candidates[i])
  }

  /** The table after a candidate has been tried and not replayed. */
  function Tried(limits: Limits, table: Table, hold: Hold): Table {
    if Claimable(limits, table, hold) then ReleaseOn(ClaimOn(table, hold), hold) else table
  }

  lemma OneHandedBack(limits: Limits, table: Table, lease: int, id: nat, rest: seq<nat>)
    requires id !in rest
    ensures var table' := Tried(limits, table, Hold(id, lease));
            && HandedBack(limits, table', lease, rest) == HandedBack(limits, table, lease, [id] + rest)
            && SameLetters(table, table')
            && forall c :: c != id ==> (Claimable(limits, table', Hold(c, lease)) <==> Claimable(limits, table, Hold(c, lease)))
  {
  }

  lemma ClaimedLaneReads(limits: Limits, lanes: (Table, nat) -> seq<nat>, table: Table, hold: Hold)
    requires IgnoresLeases(lanes) && hold.id in table
    ensures lanes(ClaimOn(table, hold), hold.id) == lanes(table, hold.id)
  {
    assert SameLetters(ClaimOn(table, hold), table);
  }

  lemma TakesTheFirst(limits: Limits, out: Outside, lanes: (Table, nat) -> seq<nat>, table: Table, effects: seq<nat>, lease: int, candidates: seq<nat>)
    requires IgnoresLeases(lanes) && candidates != [] && Suits(limits, out, lanes, table, lease, candidates[0])
    ensures var hold := Hold(candidates[0], lease);
            && hold.id in table
            && Process(limits, out, lanes, table, effects, lease, candidates) == Walk(limits, out, ClaimOn(table, hold), effects, lanes(table, hold.id), hold)
  {
    ClaimedLaneReads(limits, lanes, table, Hold(candidates[0], lease));
    hide Walk, IgnoresLeases, ClaimOn;
  }

  lemma PassesTheFirst(limits: Limits, out: Outside, lanes: (Table, nat) -> seq<nat>, table: Table, effects: seq<nat>, lease: int, candidates: seq<nat>)
    requires IgnoresLeases(lanes) && candidates != [] && !Suits(limits, out, lanes, table, lease, candidates[0])
    ensures Process(limits, out, lanes, table, effects, lease, candidates) ==
            Process(limits, out, lanes, Tried(limits, table, Hold(candidates[0], lease)), effects, lease, candidates[1..])
  {
    var hold := Hold(candidates[0], lease);
    if Claimable(limits, table, hold) {
      ClaimedLaneReads(limits, lanes, table, hold);
    }
    hide Walk, IgnoresLeases, ClaimOn, ReleaseOn;
  }

  /** Trying one candidate changes nothing about the others. */
  lemma OthersSuitAsBefore(limits: Limits, out: Outside, lanes: (Table, nat) -> seq<nat>, table: Table, lease: int, candidates: seq<nat>, j: nat)
    requires AllDifferent(candidates) && IgnoresLeases(lanes) && 0 < j < |candidates|
    ensures var table', rest := Tried(limits, table, Hold(candidates[0], lease)), candidates[1..];
            && lanes(table', candidates[j]) == lanes(table, candidates[j]) && rest[j - 1] == candidates[j]
            && (Suits(limits, out, lanes, table', lease, rest[j - 1]) <==> Suits(limits, out, lanes, table, lease, candidates[j]))
  {
    assert candidates[0] !in [];
    OneHandedBack(limits, table, lease, candidates[0], []);
    hide Tried, Claimable;
  }

  /** Without a candidate that suits, nothing is replayed, and those that could be claimed have been handed back. */
  lemma {:induction false} ProcessFindsNone(limits: Limits, out: Outside, lanes: (Table, nat) -> seq<nat>, table: Table, effects: seq<nat>, lease: int, candidates: seq<nat>)
    requires AllDifferent(candidates) && IgnoresLeases(lanes)
    requires forall j :: 0 <= j < |candidates| ==> !Suits(limits, out, lanes, table, lease, candidates[j])
    ensures Process(limits, out, lanes, table, effects, lease, candidates) == Replayed(HandedBack(limits, table, lease, candidates), effects, false)
    decreases |candidates|
  {
    if candidates == [] {
      NothingHandedBack(limits, table, lease);
    } else {
      var id, rest := candidates[0], candidates[1..];
      var table' := Tried(limits, table, Hold(id, lease));
      assert candidates == [id] + rest && id !in rest;
      PassesTheFirst(limits, out, lanes, table, effects, lease, candidates);
      OneHandedBack(limits, table, lease, id, rest);
      hide Process, HandedBack, Tried, Suits;
      forall j | 0 <= j < |rest|
        ensures !Suits(limits, out, lanes, table', lease, rest[j])
      {
        OthersSuitAsBefore(limits, out, lanes, table, lease, candidates, j + 1);
      }
      hide IgnoresLeases;
      ProcessFindsNone(limits, out, lanes, table', effects, lease, rest);
    }
  }

  /**
    Processing replays the lane of the first candidate that can be claimed and is wanted, after
    handing back those in front of it that it could claim but does not want.
  */
  lemma {:induction false} ProcessReplays(limits: Limits, out: Outside, lanes: (Table, nat) -> seq<nat>, table: Table, effects: seq<nat>, lease: int, candidates: seq<nat>, j: nat)
    requires AllDifferent(candidates) && IgnoresLeases(lanes) && FirstSuits(limits, out, lanes, table, lease, candidates, j)
    ensures var hold, before := Hold(candidates[j], lease), HandedBack(limits, table, lease, candidates[..j]);
            && hold.id in before
            && Process(limits, out, lanes, table, effects, lease, candidates) ==
               Walk(limits, out, ClaimOn(before, hold), effects, lanes(table, hold.id), hold)
    decreases |candidates|
  {
    hide Process, Walk, HandedBack, Tried, Suits;
    if j == 0 {
      assert candidates[..0] == [];
      NothingHandedBack(limits, table, lease);
      TakesTheFirst(limits, out, lanes, table, effects, lease, candidates);
    } else {
      var id, rest := candidates[0], candidates[1..];
      var table' := Tried(limits, table, Hold(id, lease));
      PassesTheFirst(limits, out, lanes, table, effects, lease, candidates);
      assert id !in rest[..j - 1];
      OneHandedBack(limits, table, lease, id, rest[..j - 1]);
      assert [id] + rest[..j - 1] == candidates[..j];
      forall i | 0 <= i < |rest|
        ensures Suits(limits, out, lanes, table', lease, rest[i]) <==> Suits(limits, out, lanes, table, lease, candidates[i + 1])
      {
        OthersSuitAsBefore(limits, out, lanes, table, lease, candidates, i + 1);
      }
      OthersSuitAsBefore(limits, out, lanes, table, lease, candidates, j);
      ProcessReplays(limits, out, lanes, table', effects, lease, rest, j - 1);
    }
  }
}
