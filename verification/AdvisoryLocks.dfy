/**
  The advisory locks an append or a full read takes: their keys, the order in which they are
  asked for, and why sessions that ask in that order never wait for each other in a circle.
*/
module AdvisoryLocks {

  // ---------------------------------------------------------------------------
  // Keys
  // ---------------------------------------------------------------------------

  const FNV_OFFSET_BASIS: int := 0xcbf29ce484222325
  const FNV_PRIME: int := 0x100000001b3
  const TWO_63: int := 0x8000_0000_0000_0000
  const TWO_64: int := 0x1_0000_0000_0000_0000

  type Bytes = seq<bv8>

  /** `h XOR b`: only the low byte of `h` is touched. */
  function XorByte(h: int, b: bv8): int
    requires 0 <= h
  {
    h - h % 256 + ((h % 256) as bv8 ^ b) as int
  }

  /** FNV-1a over bytes, kept to 64 bits: the last byte is mixed in last. */
  function Fnv(bytes: Bytes): (h: int)
    ensures 0 <= h < TWO_64
  {
    if bytes == [] then FNV_OFFSET_BASIS
    else (XorByte(Fnv(bytes[..|bytes| - 1]), bytes[|bytes| - 1]) * FNV_PRIME) % TWO_64
  }

  /** The same 64 bits read as a signed number. */
  function Signed(h: int): (k: int)
    requires 0 <= h < TWO_64
    ensures -TWO_63 <= k < TWO_63
    ensures k % TWO_64 == h
  {
    if h >= TWO_63 then h - TWO_64 else h
  }

  method HashLockKey(bytes: Bytes) returns (key: int)
    ensures key == Signed(Fnv(bytes))
  {
    var h := FNV_OFFSET_BASIS;
    for i := 0 to |bytes|
      invariant 0 <= h < TWO_64 && h == Fnv(bytes[..i])
    {
      assert bytes[..i + 1][..i] == bytes[..i];
      h := XorByte(h, bytes[i]);
      h := (h * FNV_PRIME) % TWO_64;
    }
    assert bytes[..|bytes|] == bytes;
    key := Signed(h);
  }

  /** The published values of 64-bit FNV-1a for no bytes and for `a`. */
  lemma KnownHashes()
    ensures Fnv([]) == 0xcbf29ce484222325 && Fnv([0x61]) == 0xaf63dc4c8601ec8c
  {
    var a: Bytes := [0x61];
    assert a[..0] == [];
    assert 0xcbf29ce484222325 % 256 == 0x25;
    assert 0x25 as bv8 ^ 0x61 == 0x44 as bv8;
    assert XorByte(0xcbf29ce484222325, 0x61) == 0xcbf29ce484222344;
    assert Fnv(a) == (0xcbf29ce484222344 * 0x100000001b3) % TWO_64;
  }

  const SEPARATOR: bv8 := 0x1f

  function LeafText(kind: Bytes, tag: Bytes): Bytes {
    [0x4c, SEPARATOR] + kind + [SEPARATOR] + tag
  }

  function TypeIntentText(kind: Bytes): Bytes {
    [0x54, SEPARATOR] + kind
  }

  const GLOBAL_INTENT_TEXT: Bytes := [0x47]

  /** The texts that are hashed never coincide across keyspaces, nor between two leaves with plain types. */
  lemma TextsAreDistinct(kind: Bytes, tag: Bytes, kind': Bytes, tag': Bytes)
    requires SEPARATOR !in kind && SEPARATOR !in kind'
    ensures LeafText(kind, tag) == LeafText(kind', tag') <==> kind == kind' && tag == tag'
    ensures LeafText(kind, tag) != TypeIntentText(kind') && LeafText(kind, tag) != GLOBAL_INTENT_TEXT
    ensures TypeIntentText(kind) != GLOBAL_INTENT_TEXT
    ensures TypeIntentText(kind) == TypeIntentText(kind') <==> kind == kind'
  {
    var a, b := LeafText(kind, tag), LeafText(kind', tag');
    assert a[0] == 0x4c && TypeIntentText(kind')[0] == 0x54;
    assert forall i :: 0 <= i < |kind| ==> a[2 + i] == kind[i];
    assert forall i :: 0 <= i < |kind'| ==> b[2 + i] == kind'[i];
    assert a[2 + |kind|] == SEPARATOR && b[2 + |kind'|] == SEPARATOR;
    if a == b {
      assert forall i :: 0 <= i < |kind| ==> kind[i] != SEPARATOR;
      assert forall i :: 0 <= i < |kind'| ==> kind'[i] != SEPARATOR;
      assert |kind| == |kind'|;
      assert kind == a[2..2 + |kind|] == kind';
      assert tag == a[3 + |kind|..] == tag';
    }
    assert TypeIntentText(kind)[2..] == kind && TypeIntentText(kind')[2..] == kind';
  }

  // ---------------------------------------------------------------------------
  // What is asked for, and in which order
  // ---------------------------------------------------------------------------

  datatype Target = Target(kind: string, tag: string)

  /** How targets become lock keys. */
  datatype Keys = Keys(leaf: (string, string) -> int, intent: string -> int, global: int)

  datatype Mode = Shared | Exclusive

  datatype Request = Request(key: int, mode: Mode)

  ghost predicate Ascends(xs: seq<int>) {
    forall i, j :: 0 <= i < j < |xs| ==> xs[i] < xs[j]
  }

  function Insert(x: int, xs: seq<int>): (r: seq<int>)
    requires Ascends(xs)
    ensures Ascends(r)
    ensures forall y :: y in r <==> y == x || y in xs
  {
    if xs == [] then [x]
    else if x == xs[0] then xs
    else if x < xs[0] then [x] + xs
    else
      var r := Insert(x, xs[1..]);
      assert forall i :: 0 <= i < |r| ==> r[i] in r;
      [xs[0]] + r
  }

  /** Duplicates removed, in ascending order. */
  function UniqueSorted(xs: seq<int>): (r: seq<int>)
    ensures Ascends(r)
    ensures forall y :: y in r <==> y in xs
  {
    if xs == [] then [] else Insert(xs[0], UniqueSorted(xs[1..]))
  }

  function LeafKeys(keys: Keys, targets: seq<Target>): seq<int> {
    UniqueSorted(seq(|targets|, i requires 0 <= i < |targets| => keys.leaf(targets[i].kind, targets[i].tag)))
  }

  function IntentKeys(keys: Keys, targets: seq<Target>): seq<int> {
    UniqueSorted(seq(|targets|, i requires 0 <= i < |targets| => keys.intent(targets[i].kind)))
  }

  function Requests(xs: seq<int>, mode: Mode): (r: seq<Request>)
    ensures |r| == |xs| && forall i :: 0 <= i < |xs| ==> r[i] == Request(xs[i], mode)
  {
    seq(|xs|, i requires 0 <= i < |xs| => Request(xs[i], mode))
  }

  /** Leaves in one mode, intents and the global intent in the other. */
  function Plan(keys: Keys, targets: seq<Target>, leaves: Mode, intents: Mode): seq<Request> {
    (if targets == [] then [] else Requests(LeafKeys(keys, targets), leaves) + Requests(IntentKeys(keys, targets), intents))
    + [Request(keys.global, intents)]
  }

  function WritePlan(keys: Keys, targets: seq<Target>): seq<Request> {
    Plan(keys, targets, Exclusive, Shared)
  }

  function ReadPlan(keys: Keys, targets: seq<Target>): seq<Request> {
    Plan(keys, targets, Shared, Exclusive)
  }

  lemma LeavesOf(keys: Keys, targets: seq<Target>, k: int)
    ensures k in LeafKeys(keys, targets) <==> exists t :: t in targets && k == keys.leaf(t.kind, t.tag)
  {
    var raw := seq(|targets|, i requires 0 <= i < |targets| => keys.leaf(targets[i].kind, targets[i].tag));
    if k in raw {
      var i :| 0 <= i < |raw| && raw[i] == k;
      assert targets[i] in targets;
    }
    if t :| t in targets && k == keys.leaf(t.kind, t.tag) {
      var i :| 0 <= i < |targets| && targets[i] == t;
      assert raw[i] == k;
    }
  }

  lemma IntentsOf(keys: Keys, targets: seq<Target>, k: int)
    ensures k in IntentKeys(keys, targets) <==> exists t :: t in targets && k == keys.intent(t.kind)
  {
    var kinds := seq(|targets|, i requires 0 <= i < |targets| => keys.intent(targets[i].kind));
    if k in kinds {
      var i :| 0 <= i < |kinds| && kinds[i] == k;
      assert targets[i] in targets;
    }
    if t :| t in targets && k == keys.intent(t.kind) {
      var i :| 0 <= i < |targets| && targets[i] == t;
      assert kinds[i] == k;
    }
  }

  /** What a plan asks for, whatever the order: every target's leaf, every kind's intent and the global intent. */
  lemma PlanAsks(keys: Keys, targets: seq<Target>, leaves: Mode, intents: Mode, r: Request)
    ensures r in Plan(keys, targets, leaves, intents) <==>
            || (r.mode == leaves && exists t :: t in targets && r.key == keys.leaf(t.kind, t.tag))
            || (r.mode == intents && exists t :: t in targets && r.key == keys.intent(t.kind))
            || r == Request(keys.global, intents)
  {
    hide LeafKeys, IntentKeys, Requests;
    LeavesOf(keys, targets, r.key);
    IntentsOf(keys, targets, r.key);
    InRequests(LeafKeys(keys, targets), leaves, r);
    InRequests(IntentKeys(keys, targets), intents, r);
  }

  lemma InRequests(xs: seq<int>, mode: Mode, r: Request)
    ensures r in Requests(xs, mode) <==> r.mode == mode && r.key in xs
  {
    if r.mode == mode && r.key in xs {
      var i :| 0 <= i < |xs| && xs[i] == r.key;
      assert Requests(xs, mode)[i] == r;
    }
  }

  /** A writer asks for its leaves exclusively and for the intents shared. */
  lemma WritePlanAsks(keys: Keys, targets: seq<Target>, r: Request)
    ensures r in WritePlan(keys, targets) <==>
            if r.mode.Exclusive? then exists t :: t in targets && r.key == keys.leaf(t.kind, t.tag)
            else r.key == keys.global || exists t :: t in targets && r.key == keys.intent(t.kind)
  {
    PlanAsks(keys, targets, Exclusive, Shared, r);
    hide Plan;
  }

  /** A reader asks for its leaves shared and for the intents exclusively. */
  lemma ReadPlanAsks(keys: Keys, targets: seq<Target>, r: Request)
    ensures r in ReadPlan(keys, targets) <==>
            if r.mode.Shared? then exists t :: t in targets && r.key == keys.leaf(t.kind, t.tag)
            else r.key == keys.global || exists t :: t in targets && r.key == keys.intent(t.kind)
  {
    PlanAsks(keys, targets, Shared, Exclusive, r);
    hide Plan;
  }

  /** The statements issued for a writer, one per loop iteration. */
  method AcquireWriteLocks(keys: Keys, targets: seq<Target>) returns (issued: seq<Request>)
    ensures issued == WritePlan(keys, targets)
  {
    if |targets| == 0 {
      return [Request(keys.global, Shared)];
    }
    issued := [];
    var leafKeys, intentKeys := LeafKeys(keys, targets), IntentKeys(keys, targets);
    for i := 0 to |leafKeys|
      invariant issued == Requests(leafKeys, Exclusive)[..i]
    {
      issued := issued + [Request(leafKeys[i], Exclusive)];
    }
    for i := 0 to |intentKeys|
      invariant issued == Requests(leafKeys, Exclusive) + Requests(intentKeys, Shared)[..i]
    {
      issued := issued + [Request(intentKeys[i], Shared)];
    }
    issued := issued + [Request(keys.global, Shared)];
  }

  /** The statements issued for a reader: the other way round. */
  method AcquireReadLocks(keys: Keys, targets: seq<Target>) returns (issued: seq<Request>)
    ensures issued == ReadPlan(keys, targets)
  {
    if |targets| == 0 {
      return [Request(keys.global, Exclusive)];
    }
    issued := [];
    var leafKeys, intentKeys := LeafKeys(keys, targets), IntentKeys(keys, targets);
    for i := 0 to |leafKeys|
      invariant issued == Requests(leafKeys, Shared)[..i]
    {
      issued := issued + [Request(leafKeys[i], Shared)];
    }
    for i := 0 to |intentKeys|
      invariant issued == Requests(leafKeys, Shared) + Requests(intentKeys, Exclusive)[..i]
    {
      issued := issued + [Request(intentKeys[i], Exclusive)];
    }
    issued := issued + [Request(keys.global, Exclusive)];
  }

  /**
    The key classes can be told apart by rank: no leaf key serves as an intent, and an intent
    key that is the global one too is the last of the intents.
  */
  ghost predicate Ranked(keys: Keys) {
    && (forall a, b, c :: keys.leaf(a, b) != keys.intent(c))
    && (forall a, b :: keys.leaf(a, b) != keys.global)
    && (forall c, d :: keys.intent(c) == keys.global ==> keys.intent(d) <= keys.global)
  }

  ghost function Class(keys: Keys, k: int): int {
    if k == keys.global then 2 else if exists c :: keys.intent(c) == k then 1 else 0
  }

  /** Leaves before intents before the global intent, and by value within a class. */
  ghost predicate Before(keys: Keys, a: int, b: int) {
    Class(keys, a) < Class(keys, b) || (Class(keys, a) == Class(keys, b) && a < b)
  }

  /** Keys are asked for in that order; a lock asked for twice is asked for the same way. */
  ghost predicate Orderly(keys: Keys, plan: seq<Request>) {
    forall i, j :: 0 <= i < j < |plan| ==> Before(keys, plan[i].key, plan[j].key) || plan[i] == plan[j]
  }

  lemma IsLeafKey(keys: Keys, targets: seq<Target>, k: int)
    requires k in LeafKeys(keys, targets)
    ensures exists a, b :: keys.leaf(a, b) == k
  {
    var texts := seq(|targets|, i requires 0 <= i < |targets| => keys.leaf(targets[i].kind, targets[i].tag));
    var n :| 0 <= n < |texts| && texts[n] == k;
    assert keys.leaf(targets[n].kind, targets[n].tag) == k;
  }

  lemma IsIntentKey(keys: Keys, targets: seq<Target>, k: int)
    requires k in IntentKeys(keys, targets)
    ensures exists c :: keys.intent(c) == k
  {
    var texts := seq(|targets|, i requires 0 <= i < |targets| => keys.intent(targets[i].kind));
    var n :| 0 <= n < |texts| && texts[n] == k;
    assert keys.intent(targets[n].kind) == k;
  }

  lemma LeavesAreFirst(keys: Keys, targets: seq<Target>, k: int)
    requires Ranked(keys) && k in LeafKeys(keys, targets)
    ensures Class(keys, k) == 0
  {
    IsLeafKey(keys, targets, k);
  }

  lemma IntentsAreSecond(keys: Keys, targets: seq<Target>, k: int)
    requires Ranked(keys) && k in IntentKeys(keys, targets)
    ensures Class(keys, k) == if k == keys.global then 2 else 1
  {
    IsIntentKey(keys, targets, k);
  }

  lemma GlobalIsLast(keys: Keys, targets: seq<Target>, k: int)
    requires Ranked(keys) && k in IntentKeys(keys, targets) && keys.global in IntentKeys(keys, targets)
    ensures k <= keys.global
  {
    IsIntentKey(keys, targets, k);
    IsIntentKey(keys, targets, keys.global);
  }

  /** Every plan asks for its keys in that order. */
  lemma PlansAreOrderly(keys: Keys, targets: seq<Target>, leaves: Mode, intents: Mode)
    requires Ranked(keys)
    ensures Orderly(keys, Plan(keys, targets, leaves, intents))
  {
    hide Class, Ranked, LeafKeys, IntentKeys, Ascends, Before, Plan, Orderly;
    var plan := Plan(keys, targets, leaves, intents);
    var ls, ns := LeafKeys(keys, targets), IntentKeys(keys, targets);
    if targets == [] {
      OnlyGlobal(keys, leaves, intents);
    } else {
      forall k | k in ls ensures Class(keys, k) == 0 {
        LeavesAreFirst(keys, targets, k);
      }
      forall k | k in ns ensures Class(keys, k) == (if k == keys.global then 2 else 1) && (keys.global in ns ==> k <= keys.global) {
        IntentsAreSecond(keys, targets, k);
        if keys.global in ns {
          GlobalIsLast(keys, targets, k);
        }
      }
      KeysAscend(keys, targets);
      PlanAt(keys, targets, leaves, intents);
      ClassesInOrder(keys, plan, ls, ns, leaves, intents);
    }
  }

  lemma OnlyGlobal(keys: Keys, leaves: Mode, intents: Mode)
    ensures Plan(keys, [], leaves, intents) == [Request(keys.global, intents)] && Orderly(keys, Plan(keys, [], leaves, intents))
  {
    hide Before;
  }

  lemma KeysAscend(keys: Keys, targets: seq<Target>)
    ensures Ascends(LeafKeys(keys, targets)) && Ascends(IntentKeys(keys, targets)) && Class(keys, keys.global) == 2
  {
  }

  /** What a plan with targets asks for, place by place. */
  lemma PlanAt(keys: Keys, targets: seq<Target>, leaves: Mode, intents: Mode)
    requires targets != []
    ensures var plan, ls, ns := Plan(keys, targets, leaves, intents), LeafKeys(keys, targets), IntentKeys(keys, targets);
            && |plan| == |ls| + |ns| + 1 && plan[|ls| + |ns|] == Request(keys.global, intents)
            && (forall i :: 0 <= i < |ls| ==> plan[i] == Request(ls[i], leaves))
            && (forall i :: 0 <= i < |ns| ==> plan[|ls| + i] == Request(ns[i], intents))
  {
    hide LeafKeys, IntentKeys;
  }

  lemma ClassesInOrder(keys: Keys, plan: seq<Request>, ls: seq<int>, ns: seq<int>, leaves: Mode, intents: Mode)
    requires |plan| == |ls| + |ns| + 1 && plan[|ls| + |ns|] == Request(keys.global, intents) && Class(keys, keys.global) == 2
    requires forall i :: 0 <= i < |ls| ==> plan[i] == Request(ls[i], leaves)
    requires forall i :: 0 <= i < |ns| ==> plan[|ls| + i] == Request(ns[i], intents)
    requires forall k :: k in ls ==> Class(keys, k) == 0
    requires forall k :: k in ns ==> Class(keys, k) == (if k == keys.global then 2 else 1) && (keys.global in ns ==> k <= keys.global)
    requires Ascends(ls) && Ascends(ns)
    ensures Orderly(keys, plan)
  {
    hide Class;
    forall i, j | 0 <= i < j < |plan| ensures Before(keys, plan[i].key, plan[j].key) || plan[i] == plan[j] {
      assert i < |ls| ==> plan[i].key == ls[i] && ls[i] in ls;
      assert |ls| <= i < |ls| + |ns| ==> plan[i] == plan[|ls| + (i - |ls|)] == Request(ns[i - |ls|], intents) && ns[i - |ls|] in ns;
      assert j < |ls| ==> plan[j].key == ls[j] && ls[j] in ls;
      assert |ls| <= j < |ls| + |ns| ==> plan[j] == plan[|ls| + (j - |ls|)] == Request(ns[j - |ls|], intents) && ns[j - |ls|] in ns;
    }
  }

  // ---------------------------------------------------------------------------
  // Sessions that wait for each other
  // ---------------------------------------------------------------------------

  /** A session has its first `granted` requests and may be waiting for the next one. */
  datatype Session = Session(plan: seq<Request>, granted: nat)

  /** `queue` holds the waiting sessions in the order they started to wait. */
  datatype State = State(sessions: map<nat, Session>, queue: seq<nat>)

  predicate Conflicts(a: Request, b: Request) {
    a.key == b.key && (a.mode.Exclusive? || b.mode.Exclusive?)
  }

  ghost predicate Holds(s: State, t: nat, r: Request) {
    t in s.sessions && exists i :: 0 <= i < s.sessions[t].granted && i < |s.sessions[t].plan| && s.sessions[t].plan[i] == r
  }

  ghost predicate Waits(s: State, t: nat, r: Request) {
    t in s.queue && t in s.sessions && s.sessions[t].granted < |s.sessions[t].plan| && s.sessions[t].plan[s.sessions[t].granted] == r
  }

  /** Nothing held by another session, and nothing asked for earlier by one, stands in the way. */
  ghost predicate Unopposed(s: State, n: nat, want: Request)
    requires n < |s.queue|
  {
    && (forall u, r :: u != s.queue[n] && Holds(s, u, r) ==> !Conflicts(r, want))
    && (forall m, r :: 0 <= m < n && Waits(s, s.queue[m], r) ==> !Conflicts(r, want))
  }

  /** A lock the session already holds in that mode is granted at once. */
  ghost predicate Grantable(s: State, n: nat) {
    && n < |s.queue| && s.queue[n] in s.sessions
    && var x := s.sessions[s.queue[n]];
       x.granted < |x.plan| && (Holds(s, s.queue[n], x.plan[x.granted]) || Unopposed(s, n, x.plan[x.granted]))
  }

  datatype Step =
    | Start(t: nat, plan: seq<Request>)
    | Ask(t: nat)
    | Grant(n: nat)
    | End(t: nat)

  function Remove(queue: seq<nat>, t: nat): seq<nat> {
    if queue == [] then [] else (if queue[0] == t then [] else [queue[0]]) + Remove(queue[1..], t)
  }

  ghost predicate IsPlan(keys: Keys, plan: seq<Request>) {
    exists targets :: plan == WritePlan(keys, targets) || plan == ReadPlan(keys, targets)
  }

  ghost predicate Takes(keys: Keys, s: State, step: Step, s': State) {
    match step
    case Start(t, plan) =>
      && t !in s.sessions && t !in s.queue
      && IsPlan(keys, plan)
      && s' == s.(sessions := s.sessions[t := Session(plan, 0)])
    case Ask(t) =>
      && t in s.sessions && t !in s.queue && s.sessions[t].granted < |s.sessions[t].plan|
      && s' == s.(queue := s.queue + [t])
    case Grant(n) =>
      && Grantable(s, n)
      && var t := s.queue[n];
         s' == State(s.sessions[t := s.sessions[t].(granted := s.sessions[t].granted + 1)], s.queue[..n] + s.queue[n + 1..])
    case End(t) =>
      && t in s.sessions
      && s' == State(map u | u in s.sessions && u != t :: s.sessions[u], Remove(s.queue, t))
  }

  ghost predicate Next(keys: Keys, s: State, s': State) {
    exists step :: Takes(keys, s, step, s')
  }

  ghost predicate Run(keys: Keys, run: seq<State>) {
    && |run| > 0 && run[0] == State(map[], [])
    && forall i :: 0 <= i < |run| - 1 ==> Next(keys, run[i], run[i + 1])
  }

  ghost predicate NoDuplicates(queue: seq<nat>) {
    forall i, j :: 0 <= i < j < |queue| ==> queue[i] != queue[j]
  }

  ghost predicate Queued(s: State) {
    && NoDuplicates(s.queue)
    && forall t :: t in s.queue ==> t in s.sessions && s.sessions[t].granted < |s.sessions[t].plan|
  }

  ghost predicate Planned(keys: Keys, s: State) {
    forall t :: t in s.sessions ==> IsPlan(keys, s.sessions[t].plan) && s.sessions[t].granted <= |s.sessions[t].plan|
  }

  /** Two sessions never hold conflicting locks. */
  ghost predicate Compatible(s: State) {
    forall t, u, a, b :: t != u && Holds(s, t, a) && Holds(s, u, b) ==> !Conflicts(a, b)
  }

  ghost predicate Inv(keys: Keys, s: State) {
    Queued(s) && Planned(keys, s) && Compatible(s)
  }

  lemma {:induction false} RemoveHolds(queue: seq<nat>, t: nat)
    requires NoDuplicates(queue)
    ensures NoDuplicates(Remove(queue, t))
    ensures forall u :: u in Remove(queue, t) <==> u in queue && u != t
  {
    if queue != [] {
      RemoveHolds(queue[1..], t);
      var rest := Remove(queue[1..], t);
      assert queue[0] !in queue[1..];
      assert forall i :: 0 <= i < |rest| ==> rest[i] in rest;
    }
  }

  lemma GrantKeeps(keys: Keys, s: State, n: nat, s': State)
    requires Inv(keys, s) && Takes(keys, s, Grant(n), s')
    ensures Inv(keys, s')
  {
    hide IsPlan;
    var t := s.queue[n];
    var x := s.sessions[t];
    var want := x.plan[x.granted];
    forall u, a | Holds(s', u, a) ensures Holds(s, u, a) || (u == t && a == want) {
      var i :| 0 <= i < s'.sessions[u].granted && i < |s'.sessions[u].plan| && s'.sessions[u].plan[i] == a;
    }
    assert forall u, a :: u != t && Holds(s, u, a) ==> !Conflicts(a, want);
    forall u | u in s'.queue ensures u in s.queue && u != t {
      var i :| 0 <= i < |s'.queue| && s'.queue[i] == u;
      assert s'.queue[i] == s.queue[if i < n then i else i + 1];
    }
    assert NoDuplicates(s'.queue);
  }

  /** When nobody holds anything new, what is held stays compatible. */
  lemma FewerHolds(s: State, s': State)
    requires Compatible(s) && forall u, a :: Holds(s', u, a) ==> Holds(s, u, a)
    ensures Compatible(s')
  {
    hide Holds, Conflicts;
  }

  lemma StartKeeps(keys: Keys, s: State, t: nat, plan: seq<Request>, s': State)
    requires Inv(keys, s) && Takes(keys, s, Start(t, plan), s')
    ensures Inv(keys, s')
  {
    hide IsPlan, Compatible;
    assert forall u, a :: Holds(s', u, a) ==> Holds(s, u, a);
    FewerHolds(s, s');
  }

  lemma AskKeeps(keys: Keys, s: State, t: nat, s': State)
    requires Inv(keys, s) && Takes(keys, s, Ask(t), s')
    ensures Inv(keys, s')
  {
    hide IsPlan, Compatible;
    assert forall u, a :: Holds(s', u, a) ==> Holds(s, u, a);
    FewerHolds(s, s');
  }

  lemma EndKeeps(keys: Keys, s: State, t: nat, s': State)
    requires Inv(keys, s) && Takes(keys, s, End(t), s')
    ensures Inv(keys, s')
  {
    hide IsPlan, Compatible;
    RemoveHolds(s.queue, t);
    assert forall u, a :: Holds(s', u, a) ==> Holds(s, u, a);
    FewerHolds(s, s');
  }

  lemma StepKeepsInv(keys: Keys, s: State, step: Step, s': State)
    requires Inv(keys, s) && Takes(keys, s, step, s')
    ensures Inv(keys, s')
  {
    hide Takes, Inv;
    match step {
      case Start(t, plan) => StartKeeps(keys, s, t, plan, s');
      case Ask(t) => AskKeeps(keys, s, t, s');
      case Grant(n) => GrantKeeps(keys, s, n, s');
      case End(t) => EndKeeps(keys, s, t, s');
    }
  }

  lemma {:induction false} RunKeepsInv(keys: Keys, run: seq<State>)
    requires Run(keys, run)
    ensures Inv(keys, run[|run| - 1])
  {
    if |run| > 1 {
      var n := |run| - 1;
      assert Run(keys, run[..n]);
      RunKeepsInv(keys, run[..n]);
      hide Takes;
      assert Next(keys, run[n - 1], run[n]);
      var step :| Takes(keys, run[n - 1], step, run[n]);
      StepKeepsInv(keys, run[n - 1], step, run[n]);
    }
  }

  // ---------------------------------------------------------------------------
  // Somebody can always go on
  // ---------------------------------------------------------------------------

  ghost function Awaited(s: State, n: nat): int
    requires Queued(s) && n < |s.queue|
  {
    assert s.queue[n] in s.queue;
    var x := s.sessions[s.queue[n]];
    x.plan[x.granted].key
  }

  /** Among the first `m` waiters: one whose key is the last in the order, and the first to wait for it. */
  ghost predicate Foremost(keys: Keys, s: State, m: nat, n: nat)
    requires Queued(s)
  {
    && n < m <= |s.queue|
    && forall i: nat :: i < m ==> Before(keys, Awaited(s, i), Awaited(s, n)) || (Awaited(s, i) == Awaited(s, n) && n <= i)
  }

  lemma {:induction false} ForemostExists(keys: Keys, s: State, m: nat) returns (n: nat)
    requires Queued(s) && 0 < m <= |s.queue|
    ensures Foremost(keys, s, m, n)
  {
    hide Class;
    if m == 1 {
      n := 0;
    } else {
      n := ForemostExists(keys, s, m - 1);
      if Before(keys, Awaited(s, n), Awaited(s, m - 1)) {
        n := m - 1;
      }
    }
  }

  /** The session waits for a lock it already has. */
  ghost predicate HasAlready(s: State, n: nat)
    requires Queued(s) && n < |s.queue|
  {
    assert s.queue[n] in s.queue;
    var x := s.sessions[s.queue[n]];
    Holds(s, s.queue[n], x.plan[x.granted])
  }

  /** A waiter whose awaited key is last in the order finds every conflicting holder gone. */
  lemma ForemostIsGrantable(keys: Keys, s: State, n: nat)
    requires Inv(keys, s) && Foremost(keys, s, |s.queue|, n) && forall m: nat :: m < |s.queue| ==> !HasAlready(s, m)
    requires forall t :: t in s.sessions ==> t in s.queue && Orderly(keys, s.sessions[t].plan)
    ensures Grantable(s, n)
  {
    hide Class, Compatible, IsPlan;
    assert s.queue[n] in s.queue;
    var x := s.sessions[s.queue[n]];
    var want := x.plan[x.granted];
    forall u, r | u != s.queue[n] && Holds(s, u, r) ensures !Conflicts(r, want) {
      var y := s.sessions[u];
      var i :| 0 <= i < y.granted && i < |y.plan| && y.plan[i] == r;
      var m :| 0 <= m < |s.queue| && s.queue[m] == u;
      assert !HasAlready(s, m) && y.plan[i] != y.plan[y.granted];
      assert Before(keys, r.key, Awaited(s, m)) by {
        assert y.granted < |y.plan| && Orderly(keys, y.plan);
      }
    }
    forall m, r | 0 <= m < n && Waits(s, s.queue[m], r) ensures !Conflicts(r, want) {
      assert r.key == Awaited(s, m);
    }
  }

  /**
    Deadlock freedom: in every reachable state with sessions in it, one of them is not waiting,
    or a waiting one can be granted what it waits for.
  */
  lemma SomebodyCanProceed(keys: Keys, run: seq<State>)
    requires Ranked(keys) && Run(keys, run)
    ensures var s := run[|run| - 1];
            s.sessions != map[] ==> (exists t :: t in s.sessions && t !in s.queue) || (exists n: nat :: Grantable(s, n))
  {
    RunKeepsInv(keys, run);
    var s := run[|run| - 1];
    hide Run;
    if s.sessions != map[] && forall t :: t in s.sessions ==> t in s.queue {
      forall t | t in s.sessions ensures Orderly(keys, s.sessions[t].plan) {
        AnyPlanIsOrderly(keys, s.sessions[t].plan);
      }
      hide Ranked, Orderly, Compatible, IsPlan;
      var t :| t in s.sessions;
      assert t in s.queue;
      if m: nat :| m < |s.queue| && HasAlready(s, m) {
        assert s.queue[m] in s.queue;
        assert Grantable(s, m);
      } else {
        var n := ForemostExists(keys, s, |s.queue|);
        ForemostIsGrantable(keys, s, n);
      }
    }
  }

  lemma AnyPlanIsOrderly(keys: Keys, plan: seq<Request>)
    requires Ranked(keys) && IsPlan(keys, plan)
    ensures Orderly(keys, plan)
  {
    var targets :| plan == WritePlan(keys, targets) || plan == ReadPlan(keys, targets);
    PlansAreOrderly(keys, targets, Exclusive, Shared);
    PlansAreOrderly(keys, targets, Shared, Exclusive);
    hide Ranked, Orderly, Plan;
  }

  ghost predicate HoldsAll(s: State, t: nat, plan: seq<Request>) {
    t in s.sessions && s.sessions[t].plan == plan && s.sessions[t].granted == |plan|
  }

  /** A reader of everything and a writer never hold their full lock sets together. */
  lemma FullReadExcludesWriters(keys: Keys, run: seq<State>, t: nat, u: nat, targets: seq<Target>)
    requires Run(keys, run) && t != u
    requires HoldsAll(run[|run| - 1], t, ReadPlan(keys, []))
    ensures !HoldsAll(run[|run| - 1], u, WritePlan(keys, targets))
  {
    RunKeepsInv(keys, run);
    var s := run[|run| - 1];
    var plan := WritePlan(keys, targets);
    if HoldsAll(s, u, plan) {
      assert ReadPlan(keys, [])[0] == Request(keys.global, Exclusive);
      assert plan[|plan| - 1] == Request(keys.global, Shared);
      assert Holds(s, t, Request(keys.global, Exclusive)) && Holds(s, u, Request(keys.global, Shared));
      assert false;
    }
  }

  /** Two writers with a leaf in common never hold their full lock sets together. */
  lemma WritersOfOneLeafExclude(keys: Keys, run: seq<State>, t: nat, u: nat, a: seq<Target>, b: seq<Target>, leaf: Target)
    requires Run(keys, run) && t != u && leaf in a && leaf in b
    requires HoldsAll(run[|run| - 1], t, WritePlan(keys, a))
    ensures !HoldsAll(run[|run| - 1], u, WritePlan(keys, b))
  {
    RunKeepsInv(keys, run);
    var s := run[|run| - 1];
    if HoldsAll(s, u, WritePlan(keys, b)) {
      LeafIsAsked(keys, s, t, a, leaf);
      LeafIsAsked(keys, s, u, b, leaf);
      assert false;
    }
  }

  lemma LeafIsAsked(keys: Keys, s: State, t: nat, targets: seq<Target>, leaf: Target)
    requires leaf in targets && HoldsAll(s, t, WritePlan(keys, targets))
    ensures Holds(s, t, Request(keys.leaf(leaf.kind, leaf.tag), Exclusive))
  {
    var texts := seq(|targets|, i requires 0 <= i < |targets| => keys.leaf(targets[i].kind, targets[i].tag));
    var n :| 0 <= n < |targets| && targets[n] == leaf;
    assert texts[n] in texts;
    var ls := LeafKeys(keys, targets);
    var i :| 0 <= i < |ls| && ls[i] == texts[n];
    assert WritePlan(keys, targets)[i] == Request(ls[i], Exclusive);
  }

  // ---------------------------------------------------------------------------
  // Keys that cannot be ranked deadlock
  // ---------------------------------------------------------------------------

  /** Nobody can go on: every session waits, and no waiter can be granted. */
  ghost predicate Deadlocked(s: State) {
    s.sessions != map[] && (forall t :: t in s.sessions ==> t in s.queue) && forall n: nat :: !Grantable(s, n)
  }

  ghost predicate Reaches(keys: Keys, s: State) {
    exists run :: Run(keys, run) && run[|run| - 1] == s
  }

  lemma Extend(keys: Keys, s: State, step: Step, s': State)
    requires Reaches(keys, s) && Takes(keys, s, step, s')
    ensures Reaches(keys, s')
  {
    var run :| Run(keys, run) && run[|run| - 1] == s;
    assert Next(keys, s, s');
    hide Takes, Next;
    var longer := run + [s'];
    forall i | 0 <= i < |longer| - 1 ensures Next(keys, longer[i], longer[i + 1]) {
      if i < |run| - 1 {
        assert longer[i] == run[i] && longer[i + 1] == run[i + 1];
      } else {
        assert longer[i] == s && longer[i + 1] == s';
      }
    }
    assert Run(keys, longer) && longer[|longer| - 1] == s';
  }

  /** No other session holds anything in the way. */
  ghost predicate Free(s: State, t: nat, want: Request) {
    forall u, r :: u != t && Holds(s, u, r) ==> !Conflicts(r, want)
  }

  function Advanced(s: State, t: nat, granted: nat): State
    requires t in s.sessions
  {
    s.(sessions := s.sessions[t := s.sessions[t].(granted := granted)])
  }

  lemma TakeNext(keys: Keys, s: State, t: nat)
    requires Reaches(keys, s) && s.queue == [] && t in s.sessions && s.sessions[t].granted < |s.sessions[t].plan|
    requires Free(s, t, s.sessions[t].plan[s.sessions[t].granted])
    ensures Reaches(keys, Advanced(s, t, s.sessions[t].granted + 1))
  {
    hide Reaches;
    var asked := s.(queue := [t]);
    assert Takes(keys, s, Ask(t), asked);
    Extend(keys, s, Ask(t), asked);
    var x := s.sessions[t];
    assert forall u, r :: Holds(asked, u, r) ==> Holds(s, u, r);
    assert Unopposed(asked, 0, x.plan[x.granted]);
    var got := Advanced(s, t, x.granted + 1);
    assert asked.queue[..0] + asked.queue[1..] == [];
    assert Takes(keys, asked, Grant(0), got);
    Extend(keys, asked, Grant(0), got);
  }

  lemma {:induction false} TakeUpTo(keys: Keys, s: State, t: nat, m: nat)
    requires Reaches(keys, s) && s.queue == [] && t in s.sessions && s.sessions[t].granted <= m <= |s.sessions[t].plan|
    requires forall i :: s.sessions[t].granted <= i < m ==> Free(s, t, s.sessions[t].plan[i])
    ensures Reaches(keys, Advanced(s, t, m))
    decreases m - s.sessions[t].granted
  {
    hide Reaches, Conflicts;
    var x := s.sessions[t];
    if x.granted == m {
      assert s.sessions[t := x] == s.sessions;
    } else {
      TakeNext(keys, s, t);
      var next := Advanced(s, t, x.granted + 1);
      forall i | x.granted + 1 <= i < m ensures Free(next, t, x.plan[i]) {
        assert Free(s, t, x.plan[i]);
        assert forall u, r :: u != t && Holds(next, u, r) ==> Holds(s, u, r);
      }
      TakeUpTo(keys, next, t, m);
      assert Advanced(next, t, m).sessions == Advanced(s, t, m).sessions;
    }
  }

  /** Two readers, each with its plan and so much of it granted. */
  function Pair(p: seq<Request>, i: nat, q: seq<Request>, j: nat, queue: seq<nat>): State {
    State(map[0 := Session(p, i), 1 := Session(q, j)], queue)
  }

  lemma PairHolds(p: seq<Request>, i: nat, q: seq<Request>, j: nat, queue: seq<nat>, r: Request)
    requires i <= |p| && j <= |q|
    ensures Holds(Pair(p, i, q, j, queue), 0, r) <==> r in p[..i]
    ensures Holds(Pair(p, i, q, j, queue), 1, r) <==> r in q[..j]
    ensures forall t :: t != 0 && t != 1 ==> !Holds(Pair(p, i, q, j, queue), t, r)
  {
    assert forall k :: 0 <= k < i ==> p[..i][k] == p[k];
    assert forall k :: 0 <= k < j ==> q[..j][k] == q[k];
  }

  lemma StartPair(keys: Keys, p: seq<Request>, q: seq<Request>)
    requires IsPlan(keys, p) && IsPlan(keys, q)
    ensures Reaches(keys, Pair(p, 0, q, 0, []))
  {
    hide IsPlan;
    var s0 := State(map[], []);
    assert Reaches(keys, s0) by {
      assert Run(keys, [s0]) && [s0][0] == s0;
    }
    hide Reaches;
    var s1 := State(map[0 := Session(p, 0)], []);
    assert Takes(keys, s0, Start(0, p), s1);
    Extend(keys, s0, Start(0, p), s1);
    var s2 := Pair(p, 0, q, 0, []);
    assert Takes(keys, s1, Start(1, q), s2);
    Extend(keys, s1, Start(1, q), s2);
  }

  lemma FirstGoesOn(keys: Keys, p: seq<Request>, i: nat, q: seq<Request>, j: nat, m: nat)
    requires Reaches(keys, Pair(p, i, q, j, [])) && i <= m <= |p| && j <= |q|
    requires forall k, r :: i <= k < m && r in q[..j] ==> !Conflicts(r, p[k])
    ensures Reaches(keys, Pair(p, m, q, j, []))
  {
    hide Reaches, Conflicts;
    var s := Pair(p, i, q, j, []);
    forall k | i <= k < m ensures Free(s, 0, p[k]) {
      forall u, r | u != 0 && Holds(s, u, r) ensures !Conflicts(r, p[k]) {
        PairHolds(p, i, q, j, [], r);
      }
    }
    TakeUpTo(keys, s, 0, m);
    assert Advanced(s, 0, m) == Pair(p, m, q, j, []);
  }

  lemma SecondGoesOn(keys: Keys, p: seq<Request>, i: nat, q: seq<Request>, j: nat, m: nat)
    requires Reaches(keys, Pair(p, i, q, j, [])) && i <= |p| && j <= m <= |q|
    requires forall k, r :: j <= k < m && r in p[..i] ==> !Conflicts(r, q[k])
    ensures Reaches(keys, Pair(p, i, q, m, []))
  {
    hide Reaches, Conflicts;
    var s := Pair(p, i, q, j, []);
    forall k | j <= k < m ensures Free(s, 1, q[k]) {
      forall u, r | u != 1 && Holds(s, u, r) ensures !Conflicts(r, q[k]) {
        PairHolds(p, i, q, j, [], r);
      }
    }
    TakeUpTo(keys, s, 1, m);
    assert Advanced(s, 1, m) == Pair(p, i, q, m, []);
  }

  /** Each waits for something the other holds and it does not. */
  lemma BothWait(keys: Keys, p: seq<Request>, i: nat, q: seq<Request>, j: nat, a: Request, b: Request) returns (s: State)
    requires Reaches(keys, Pair(p, i, q, j, [])) && i < |p| && j < |q|
    requires p[i] !in p[..i] && q[j] !in q[..j]
    requires a in p[..i] && Conflicts(a, q[j]) && b in q[..j] && Conflicts(b, p[i])
    ensures Reaches(keys, s) && Deadlocked(s)
  {
    hide Reaches, Conflicts;
    var s0, s1 := Pair(p, i, q, j, []), Pair(p, i, q, j, [0]);
    s := Pair(p, i, q, j, [0, 1]);
    assert Takes(keys, s0, Ask(0), s1);
    Extend(keys, s0, Ask(0), s1);
    assert Takes(keys, s1, Ask(1), s);
    Extend(keys, s1, Ask(1), s);
    PairHolds(p, i, q, j, [0, 1], a);
    PairHolds(p, i, q, j, [0, 1], b);
    PairHolds(p, i, q, j, [0, 1], p[i]);
    PairHolds(p, i, q, j, [0, 1], q[j]);
    hide Holds;
    assert !Unopposed(s, 0, p[i]) && !Unopposed(s, 1, q[j]);
  }

  /** The first exclusive request of a reader whose key is one of its own leaves. */
  lemma {:induction false} FirstReused(plan: seq<Request>, ls: seq<int>, from: nat, at: nat) returns (m: nat)
    requires from <= at < |plan| && plan[at].key in ls
    ensures from <= m <= at && plan[m].key in ls && forall i :: from <= i < m ==> plan[i].key !in ls
    decreases at - from
  {
    if plan[from].key in ls {
      m := from;
    } else {
      m := FirstReused(plan, ls, from + 1, at);
    }
  }

  /** Two readers of the same targets, one of whose exclusive keys is also one of their leaves: each waits for the other's share of it. */
  lemma ReadersDeadlock(keys: Keys, targets: seq<Target>, at: nat) returns (s: State)
    requires targets != [] && |LeafKeys(keys, targets)| <= at < |ReadPlan(keys, targets)|
    requires ReadPlan(keys, targets)[at].key in LeafKeys(keys, targets)
    ensures Reaches(keys, s) && Deadlocked(s)
  {
    var p, ls, ns := ReadPlan(keys, targets), LeafKeys(keys, targets), IntentKeys(keys, targets);
    PlanAt(keys, targets, Shared, Exclusive);
    assert IsPlan(keys, p);
    hide LeafKeys, IntentKeys, ReadPlan, Plan, IsPlan, Reaches, Deadlocked;
    assert SharesThenExcludes(p, ls) by {
      forall i | |ls| <= i < |p| ensures p[i].mode == Exclusive {
        assert i < |ls| + |ns| ==> p[i] == p[|ls| + (i - |ls|)];
      }
    }
    var m := FirstReused(p, ls, |ls|, at);
    s := SharersDeadlock(keys, p, ls, m);
  }

  ghost predicate SharesThenExcludes(p: seq<Request>, ls: seq<int>) {
    && |ls| <= |p| && (forall i :: 0 <= i < |ls| ==> p[i] == Request(ls[i], Shared))
    && (forall i :: |ls| <= i < |p| ==> p[i].mode == Exclusive)
  }

  lemma PrefixHas(p: seq<Request>, n: nat, r: Request)
    requires n <= |p|
    ensures r in p[..n] <==> exists k :: 0 <= k < n && p[k] == r
  {
    assert forall k :: 0 <= k < n ==> p[..n][k] == p[k];
  }

  lemma SharersDeadlock(keys: Keys, p: seq<Request>, ls: seq<int>, m: nat) returns (s: State)
    requires IsPlan(keys, p) && SharesThenExcludes(p, ls)
    requires |ls| <= m < |p| && p[m].key in ls && forall i :: |ls| <= i < m ==> p[i].key !in ls
    ensures Reaches(keys, s) && Deadlocked(s)
  {
    hide IsPlan, Reaches, Deadlocked;
    var n := |ls|;
    forall r | r in p[..n] ensures r.mode == Shared && r.key in ls {
      PrefixHas(p, n, r);
    }
    StartPair(keys, p, p);
    assert p[..0] == [];
    FirstGoesOn(keys, p, 0, p, 0, n);
    SecondGoesOn(keys, p, n, p, 0, n);
    FirstGoesOn(keys, p, n, p, n, m);
    var shared := Request(p[m].key, Shared);
    PrefixHas(p, n, shared);
    PrefixHas(p, m, shared);
    PrefixHas(p, m, p[m]);
    PrefixHas(p, m, p[n]);
    s := BothWait(keys, p, m, p, n, if m == n then shared else p[n], shared);
  }

  lemma LeafIsPlanned(keys: Keys, targets: seq<Target>, n: nat)
    requires n < |targets|
    ensures keys.leaf(targets[n].kind, targets[n].tag) in LeafKeys(keys, targets)
    ensures keys.intent(targets[n].kind) in IntentKeys(keys, targets)
  {
    var a := seq(|targets|, i requires 0 <= i < |targets| => keys.leaf(targets[i].kind, targets[i].tag));
    var b := seq(|targets|, i requires 0 <= i < |targets| => keys.intent(targets[i].kind));
    assert a[n] in a && b[n] in b;
  }

  lemma LeafIsAnIntent(keys: Keys, a: string, b: string, c: string) returns (s: State)
    requires keys.leaf(a, b) == keys.intent(c)
    ensures Reaches(keys, s) && Deadlocked(s)
  {
    hide LeafKeys, IntentKeys, Plan, Reaches, Deadlocked;
    var targets := [Target(a, b), Target(c, b)];
    LeafIsPlanned(keys, targets, 0);
    LeafIsPlanned(keys, targets, 1);
    PlanAt(keys, targets, Shared, Exclusive);
    var ls, ns := LeafKeys(keys, targets), IntentKeys(keys, targets);
    var i :| 0 <= i < |ns| && ns[i] == keys.intent(c);
    s := ReadersDeadlock(keys, targets, |ls| + i);
  }

  lemma LeafIsTheGlobal(keys: Keys, a: string, b: string) returns (s: State)
    requires keys.leaf(a, b) == keys.global
    ensures Reaches(keys, s) && Deadlocked(s)
  {
    hide LeafKeys, IntentKeys, Plan, Reaches, Deadlocked;
    var targets := [Target(a, b)];
    LeafIsPlanned(keys, targets, 0);
    PlanAt(keys, targets, Shared, Exclusive);
    var ls, ns := LeafKeys(keys, targets), IntentKeys(keys, targets);
    s := ReadersDeadlock(keys, targets, |ls| + |ns|);
  }

  /** A reader that comes to the global key as an intent, before a higher intent, meets one that comes to it last. */
  lemma GlobalIsNotTheLastIntent(keys: Keys, c: string, d: string) returns (s: State)
    requires keys.intent(c) == keys.global < keys.intent(d)
    requires (forall a, b, e :: keys.leaf(a, b) != keys.intent(e)) && (forall a, b :: keys.leaf(a, b) != keys.global)
    ensures Reaches(keys, s) && Deadlocked(s)
  {
    hide LeafKeys, IntentKeys, ReadPlan, Plan, Reaches, Deadlocked;
    var g, h := keys.global, keys.intent(d);
    var both, one := [Target(c, ""), Target(d, "")], [Target(d, "")];
    var p, q := ReadPlan(keys, both), ReadPlan(keys, one);
    var n, m := |LeafKeys(keys, both)|, |LeafKeys(keys, one)|;
    assert IsPlan(keys, p) && IsPlan(keys, q);
    hide IsPlan;
    TwoIntents(keys, c, d);
    ReaderPlan(keys, both, d);
    ReaderPlan(keys, one, d);
    var ns, os := IntentKeys(keys, both), IntentKeys(keys, one);
    assert ns[0] == g && ns[1] == h && os[0] == h;
    assert p[n + 0] == Request(g, Exclusive) && p[n + 1] == Request(h, Exclusive);
    assert q[m + 0] == Request(h, Exclusive) && q[m + 1] == Request(g, Exclusive);
    s := CrossingDeadlock(keys, p, n, q, m, g, h);
  }

  lemma ReaderPlan(keys: Keys, targets: seq<Target>, d: string)
    requires targets != []
    requires (forall a, b, e :: keys.leaf(a, b) != keys.intent(e)) && (forall a, b :: keys.leaf(a, b) != keys.global)
    ensures var p, n, ns := ReadPlan(keys, targets), |LeafKeys(keys, targets)|, IntentKeys(keys, targets);
            && |p| == n + |ns| + 1 && p[n + |ns|] == Request(keys.global, Exclusive)
            && (forall i :: 0 <= i < |ns| ==> p[n + i] == Request(ns[i], Exclusive))
            && (forall i :: 0 <= i < n ==> p[i].mode == Shared && p[i].key != keys.global && p[i].key != keys.intent(d))
  {
    hide LeafKeys, IntentKeys, Plan;
    PlanAt(keys, targets, Shared, Exclusive);
    var ls, p := LeafKeys(keys, targets), ReadPlan(keys, targets);
    forall i | 0 <= i < |ls| ensures p[i].mode == Shared && p[i].key != keys.global && p[i].key != keys.intent(d) {
      assert ls[i] in ls;
      IsLeafKey(keys, targets, ls[i]);
    }
  }

  lemma TwoIntents(keys: Keys, c: string, d: string)
    requires keys.intent(c) < keys.intent(d)
    ensures IntentKeys(keys, [Target(c, ""), Target(d, "")]) == [keys.intent(c), keys.intent(d)]
    ensures IntentKeys(keys, [Target(d, "")]) == [keys.intent(d)]
  {
    var x, y := keys.intent(c), keys.intent(d);
    var both, one := [Target(c, ""), Target(d, "")], [Target(d, "")];
    assert seq(|both|, i requires 0 <= i < |both| => keys.intent(both[i].kind)) == [x, y];
    assert seq(|one|, i requires 0 <= i < |one| => keys.intent(one[i].kind)) == [y];
    assert [y][1..] == [] && [x, y][1..] == [y];
    assert UniqueSorted([]) == [] && UniqueSorted([y]) == Insert(y, UniqueSorted([y][1..])) == [y];
    assert UniqueSorted([x, y]) == Insert(x, UniqueSorted([x, y][1..])) == [x, y];
  }

  /** Each takes its leaves and its first intent, and then wants the other's. */
  lemma CrossingDeadlock(keys: Keys, p: seq<Request>, n: nat, q: seq<Request>, m: nat, g: int, h: int) returns (s: State)
    requires IsPlan(keys, p) && IsPlan(keys, q) && n + 1 < |p| && m + 1 < |q| && g != h
    requires p[n] == Request(g, Exclusive) && p[n + 1] == Request(h, Exclusive)
    requires q[m] == Request(h, Exclusive) && q[m + 1] == Request(g, Exclusive)
    requires forall i :: 0 <= i < n ==> p[i].mode == Shared && p[i].key != g && p[i].key != h
    requires forall i :: 0 <= i < m ==> q[i].mode == Shared && q[i].key != g && q[i].key != h
    ensures Reaches(keys, s) && Deadlocked(s)
  {
    hide IsPlan, Reaches, Deadlocked;
    StartPair(keys, p, q);
    assert q[..0] == [];
    FirstGoesOn(keys, p, 0, q, 0, n + 1);
    forall r | r in p[..n + 1] ensures r == p[n] || (r.mode == Shared && r.key != g && r.key != h) {
      PrefixHas(p, n + 1, r);
    }
    SecondGoesOn(keys, p, n + 1, q, 0, m + 1);
    PrefixHas(p, n + 1, p[n]);
    PrefixHas(q, m + 1, q[m]);
    PrefixHas(p, n + 1, p[n + 1]);
    PrefixHas(q, m + 1, q[m + 1]);
    s := BothWait(keys, p, n + 1, q, m + 1, p[n], q[m]);
  }

  /** Keys that cannot be ranked can deadlock, whichever way they collide. */
  lemma CollidingClassesDeadlock(keys: Keys) returns (s: State)
    requires !Ranked(keys)
    ensures Reaches(keys, s) && Deadlocked(s)
  {
    if a, b, c :| keys.leaf(a, b) == keys.intent(c) {
      s := LeafIsAnIntent(keys, a, b, c);
    } else if a, b :| keys.leaf(a, b) == keys.global {
      s := LeafIsTheGlobal(keys, a, b);
    } else {
      var c, d :| keys.intent(c) == keys.global && keys.intent(d) > keys.global;
      s := GlobalIsNotTheLastIntent(keys, c, d);
    }
  }

  /** Some transaction can always proceed, in every reachable state, if and only if the keys can be ranked. */
  lemma DeadlockFreeExactly(keys: Keys)
    ensures (forall s :: Reaches(keys, s) ==> !Deadlocked(s)) <==> Ranked(keys)
  {
    if Ranked(keys) {
      forall s | Reaches(keys, s) ensures !Deadlocked(s) {
        var run :| Run(keys, run) && run[|run| - 1] == s;
        SomebodyCanProceed(keys, run);
      }
    } else {
      var s := CollidingClassesDeadlock(keys);
    }
  }
}
