/**
  The subscription mirror: every instance keeps the subscriptions of the whole cluster, told
  by claims, releases and, for a joiner, by answers to its sync request.

  Environment: one channel per instance, first in first out up to the broker; the fanout
  exchange hands a message to the queue of every instance bound at that moment; each queue
  is first in first out. A claim or release changes the local mirror at once and is
  published later, in call order, once the instance is connected.
*/
module Gossip {
  import opened Wrappers

  type Sub = string

  /** A mirrored subscription: who owns it, and its query name and payload as one value. */
  datatype Record = Record(owner: nat, body: string)

  datatype Message =
    | Claim(sub: Sub, record: Record)
    | Release(owner: nat, sub: Sub)
    | Sync(requester: nat)

  const Capacity: nat := 16384

  /** What one registry keeps. */
  datatype Node = Node(mirror: map<Sub, Record>, owned: set<Sub>, failed: bool, closed: bool)

  const EmptyNode := Node(map[], {}, false, false)

  // ---------------------------------------------------------------------------
  // One registry
  // ---------------------------------------------------------------------------

  function Drop(mirror: map<Sub, Record>, sub: Sub): map<Sub, Record> {
    map s | s in mirror && s != sub :: mirror[s]
  }

  predicate Full(node: Node, sub: Sub) {
    |node.mirror| >= Capacity && sub !in node.mirror
  }

  function Terminated(node: Node): Node {
    node.(mirror := map[], owned := {}, failed := true)
  }

  function Claimed(node: Node, me: nat, sub: Sub, body: string): Node {
    node.(mirror := node.mirror[sub := Record(me, body)], owned := node.owned + {sub})
  }

  function Released(node: Node, sub: Sub): Node {
    node.(mirror := Drop(node.mirror, sub), owned := node.owned - {sub})
  }

  function Handled(node: Node, me: nat, m: Message): Node {
    if node.closed || node.failed then node
    else match m
      case Claim(sub, record) =>
        if record.owner == me then node
        else if Full(node, sub) then Terminated(node)
        else node.(mirror := node.mirror[sub := record])
      case Release(owner, sub) =>
        if owner == me then node else node.(mirror := Drop(node.mirror, sub))
      case Sync(_) => node
  }

  predicate Answers(node: Node, me: nat, m: Message) {
    !node.closed && !node.failed && m.Sync? && m.requester != me
  }

  /** A sync request of another instance is answered with every owned claim, anything else with nothing. */
  ghost predicate IsAnswer(node: Node, me: nat, m: Message, replies: seq<Message>) {
    if Answers(node, me, m) then
      && (forall r :: r in replies ==> r.Claim? && r.sub in node.owned && r.sub in node.mirror && r.record == Record(me, node.mirror[r.sub].body))
      && (forall s :: s in node.owned && s in node.mirror ==> Claim(s, Record(me, node.mirror[s].body)) in replies)
    else
      replies == []
  }

  datatype Outcome = Published(message: Message) | Closed | Failed | CapacityExhausted

  datatype Route = Nowhere | Here | To(instance: nat)

  class Registry {
    const me: nat
    var mirror: map<Sub, Record>
    var owned: set<Sub>
    var failed: bool
    var closed: bool

    ghost function View(): Node
      reads this
    {
      Node(mirror, owned, failed, closed)
    }

    constructor (me: nat)
      ensures View() == EmptyNode && this.me == me
    {
      this.me := me;
      mirror, owned, failed, closed := map[], {}, false, false;
    }

    /** The local half of a claim; the message is published once connected. */
    method ClaimSub(sub: Sub, body: string) returns (outcome: Outcome)
      modifies this
      ensures old(closed) ==> outcome == Closed && View() == old(View())
      ensures !old(closed) && old(failed) ==> outcome == Failed && View() == old(View())
      ensures !old(closed) && !old(failed) && Full(old(View()), sub) ==> outcome == CapacityExhausted && View() == old(View())
      ensures !old(closed) && !old(failed) && !Full(old(View()), sub) ==>
                outcome == Published(Claim(sub, Record(me, body))) && View() == Claimed(old(View()), me, sub, body)
    {
      if closed {
        return Closed;
      }
      if failed {
        return Failed;
      }
      if |mirror| >= Capacity && sub !in mirror {
        return CapacityExhausted;
      }
      mirror := mirror[sub := Record(me, body)];
      owned := owned + {sub};
      outcome := Published(Claim(sub, Record(me, body)));
    }

    method ReleaseSub(sub: Sub) returns (outcome: Outcome)
      modifies this
      ensures View() == Released(old(View()), sub)
      ensures outcome == (if old(closed) then Closed else if old(failed) then Failed else Published(Release(me, sub)))
    {
      mirror := map s | s in mirror && s != sub :: mirror[s];
      owned := owned - {sub};
      if closed {
        return Closed;
      }
      if failed {
        return Failed;
      }
      outcome := Published(Release(me, sub));
    }

    /** Every local subscriber is failed exactly once. */
    method Terminate() returns (ended: seq<Sub>)
      modifies this
      ensures View() == Terminated(old(View()))
      ensures multiset(ended) == multiset(old(owned))
    {
      ended := [];
      var todo := owned;
      while todo != {}
        invariant todo <= owned && owned == old(owned) && closed == old(closed)
        invariant multiset(ended) == multiset(owned - todo)
        decreases |todo|
      {
        var s :| s in todo;
        assert owned - (todo - {s}) == (owned - todo) + {s};
        ended := ended + [s];
        todo := todo - {s};
      }
      assert owned - todo == owned;
      failed := true;
      mirror, owned := map[], {};
    }

    method HandleGossip(m: Message) returns (replies: seq<Message>)
      modifies this
      ensures View() == Handled(old(View()), me, m)
      ensures IsAnswer(old(View()), me, m, replies)
    {
      replies := [];
      if closed || failed {
        return;
      }
      match m {
        case Claim(sub, record) =>
          if record.owner == me {
            return;
          }
          if |mirror| >= Capacity && sub !in mirror {
            var _ := Terminate();
            return;
          }
          mirror := mirror[sub := record];
        case Release(owner, sub) =>
          if owner == me {
            return;
          }
          mirror := map s | s in mirror && s != sub :: mirror[s];
        case Sync(requester) =>
          if requester == me {
            return;
          }
          var todo := owned;
          while todo != {}
            invariant todo <= owned && View() == old(View())
            invariant forall r :: r in replies ==>
              r.Claim? && r.sub in owned && r.sub in mirror && r.record == Record(me, mirror[r.sub].body)
            invariant forall s :: s in owned - todo && s in mirror ==> Claim(s, Record(me, mirror[s].body)) in replies
            decreases |todo|
          {
            var s :| s in todo;
            if s in mirror {
              replies := replies + [Claim(s, Record(me, mirror[s].body))];
            }
            todo := todo - {s};
          }
      }
    }

    method Deliver(sub: Sub) returns (route: Route)
      ensures route == if sub !in mirror then Nowhere else if mirror[sub].owner == me then Here else To(mirror[sub].owner)
    {
      if sub !in mirror {
        route := Nowhere;
      } else if mirror[sub].owner == me {
        route := Here;
      } else {
        route := To(mirror[sub].owner);
      }
    }
  }

  // ---------------------------------------------------------------------------
  // The cluster
  // ---------------------------------------------------------------------------

  /**
    An instance: changes waiting for the connection, messages on the way to the broker, and
    its queue there once bound.
  */
  datatype Instance = Instance(node: Node, bound: bool, announced: bool, pending: seq<Message>, wire: seq<Message>, queue: seq<Message>)

  type Cluster = map<nat, Instance>

  const Fresh := Instance(EmptyNode, false, false, [], [], [])

  /** Which instance a subscription id belongs to. */
  type Owner = Sub -> nat

  datatype Step =
    | Start(i: nat)
    | LocalClaim(i: nat, sub: Sub, body: string)
    | LocalRelease(i: nat, sub: Sub)
    | Bind(i: nat)
    | Announce(i: nat)
    | Publish(i: nat)
    | Deliver(i: nat)
    | Handle(i: nat, replies: seq<Message>)

  /** The exchange puts a message in every bound queue, the sender's own included. */
  function Fanout(c: Cluster, m: Message): Cluster {
    map j | j in c :: if c[j].bound then c[j].(queue := c[j].queue + [m]) else c[j]
  }

  /** The steps an instance takes by itself. */
  ghost predicate TakesLocally(owner: Owner, i: nat, v: Instance, step: Step, v': Instance) {
    match step
    case LocalClaim(_, sub, body) =>
      && owner(sub) == i && !Full(v.node, sub)
      && v' == v.(node := Claimed(v.node, i, sub, body), pending := v.pending + [Claim(sub, Record(i, body))])
    case LocalRelease(_, sub) =>
      owner(sub) == i && v' == v.(node := Released(v.node, sub), pending := v.pending + [Release(i, sub)])
    case Bind(_) =>
      !v.bound && v' == v.(bound := true)
    case Announce(_) =>
      v.bound && !v.announced && v' == v.(announced := true, wire := v.wire + [Sync(i)])
    case Publish(_) =>
      v.announced && v.pending != [] && v' == v.(wire := v.wire + [v.pending[0]], pending := v.pending[1..])
    case Handle(_, replies) =>
      && v.bound && v.queue != [] && IsAnswer(v.node, i, v.queue[0], replies)
      && v' == v.(node := Handled(v.node, i, v.queue[0]), queue := v.queue[1..], wire := v.wire + replies)
    case _ => false
  }

  ghost predicate Takes(owner: Owner, c: Cluster, step: Step, c': Cluster) {
    match step
    case Start(i) => i !in c && c' == c[i := Fresh]
    case Deliver(i) => i in c && c[i].wire != [] && c' == Fanout(c[i := c[i].(wire := c[i].wire[1..])], c[i].wire[0])
    case _ => step.i in c && step.i in c' && TakesLocally(owner, step.i, c[step.i], step, c'[step.i]) && c' == c[step.i := c'[step.i]]
  }

  ghost predicate NextState(owner: Owner, c: Cluster, c': Cluster) {
    exists step :: Takes(owner, c, step, c')
  }

  /** The step that leads to the run's `i`-th state is one of the protocol's. */
  ghost predicate StepAt(owner: Owner, run: seq<Cluster>, i: nat) {
    0 < i < |run| ==> NextState(owner, run[i - 1], run[i])
  }

  /** Nobody closes, fails or runs out of room. */
  ghost predicate Healthy(c: Cluster) {
    forall i :: i in c ==> !c[i].node.failed && !c[i].node.closed
  }

  ghost predicate Run(owner: Owner, run: seq<Cluster>) {
    && |run| > 0 && run[0] == map[]
    && (forall i: nat :: StepAt(owner, run, i))
    && (forall i :: 0 <= i < |run| ==> Healthy(run[i]))
  }

  // ---------------------------------------------------------------------------
  // What messages do to one mirror entry
  // ---------------------------------------------------------------------------

  function Effect(m: Message, s: Sub, entry: Option<Record>): Option<Record> {
    match m
    case Claim(sub, record) => if sub == s then Some(record) else entry
    case Release(_, sub) => if sub == s then None else entry
    case Sync(_) => entry
  }

  function After(messages: seq<Message>, s: Sub, entry: Option<Record>): Option<Record> {
    if messages == [] then entry else After(messages[1..], s, Effect(messages[0], s, entry))
  }

  lemma {:induction false} AfterJoin(a: seq<Message>, b: seq<Message>, s: Sub, entry: Option<Record>)
    ensures After(a + b, s, entry) == After(b, s, After(a, s, entry))
  {
    if a == [] {
      assert a + b == b;
    } else {
      assert (a + b)[0] == a[0] && (a + b)[1..] == a[1..] + b;
      AfterJoin(a[1..], b, s, Effect(a[0], s, entry));
    }
  }

  lemma AfterOne(m: Message, s: Sub, entry: Option<Record>)
    ensures After([m], s, entry) == Effect(m, s, entry)
  {
    assert [m][1..] == [];
  }

  /** Messages that mention a subscription decide its entry; others leave it. */
  lemma {:induction false} AfterDecides(messages: seq<Message>, s: Sub, a: Option<Record>, b: Option<Record>)
    ensures After(messages, s, a) == After(messages, s, b) || (After(messages, s, a) == a && After(messages, s, b) == b)
  {
    if messages != [] {
      AfterDecides(messages[1..], s, Effect(messages[0], s, a), Effect(messages[0], s, b));
    }
  }

  lemma {:induction false} AfterUnmentioned(messages: seq<Message>, s: Sub, entry: Option<Record>)
    requires forall m :: m in messages ==> !About(m, s)
    ensures After(messages, s, entry) == entry
  {
    if messages != [] {
      assert messages[0] in messages;
      AfterUnmentioned(messages[1..], s, entry);
    }
  }

  predicate About(m: Message, s: Sub) {
    (m.Claim? && m.sub == s) || (m.Release? && m.sub == s)
  }

  lemma AfterWithout(a: seq<Message>, b: seq<Message>, c: seq<Message>, s: Sub, entry: Option<Record>)
    requires forall m :: m in b ==> !About(m, s)
    ensures After(a + b + c, s, entry) == After(a + c, s, entry)
  {
    AfterJoin(a + b, c, s, entry);
    AfterJoin(a, b, s, entry);
    AfterUnmentioned(b, s, After(a, s, entry));
    AfterJoin(a, c, s, entry);
  }

  // ---------------------------------------------------------------------------
  // Invariant
  // ---------------------------------------------------------------------------

  function Entry(node: Node, s: Sub): Option<Record> {
    if s in node.mirror then Some(node.mirror[s]) else None
  }

  /** What a subscription's owner itself says of it. */
  function Truth(owner: Owner, c: Cluster, s: Sub): Option<Record> {
    if owner(s) in c then Entry(c[owner(s)].node, s) else None
  }

  /** A message about a subscription names its owner. */
  predicate Genuine(owner: Owner, m: Message) {
    match m
    case Claim(sub, record) => record.owner == owner(sub)
    case Release(who, sub) => who == owner(sub)
    case Sync(_) => true
  }

  function Sender(m: Message): nat {
    match m
    case Claim(_, record) => record.owner
    case Release(who, _) => who
    case Sync(requester) => requester
  }

  /** An instance sends only for itself. */
  ghost predicate SaysOnlyIts(owner: Owner, i: nat, messages: seq<Message>) {
    forall m :: m in messages ==> Genuine(owner, m) && Sender(m) == i
  }

  ghost predicate HearsOnly(owner: Owner, ids: set<nat>, messages: seq<Message>) {
    forall m :: m in messages ==> Genuine(owner, m) && Sender(m) in ids
  }

  /** A mirror entry is its owner's, and the owned ones are one's own. */
  ghost predicate MirrorInv(owner: Owner, ids: set<nat>, i: nat, node: Node) {
    && (forall s :: s in node.mirror ==> node.mirror[s].owner == owner(s) && owner(s) in ids)
    && (forall s :: s in node.owned <==> s in node.mirror && owner(s) == i)
  }

  ghost predicate InstanceInv(owner: Owner, ids: set<nat>, i: nat, v: Instance) {
    && SaysOnlyIts(owner, i, v.wire) && SaysOnlyIts(owner, i, v.pending) && HearsOnly(owner, ids, v.queue)
    && MirrorInv(owner, ids, i, v.node)
    && (!v.bound ==> v.queue == [] && !v.announced && forall s :: s in v.node.mirror ==> owner(s) == i)
  }

  ghost predicate InstancesInv(owner: Owner, c: Cluster) {
    forall i :: i in c ==> InstanceInv(owner, c.Keys, i, c[i])
  }

  /** What an instance has yet to say ends in the truth; before it has announced itself it has yet to say everything. */
  ghost predicate OutInv(v: Instance, s: Sub) {
    var truth := Entry(v.node, s);
    && After(v.wire + v.pending, s, truth) == truth
    && After(v.pending, s, truth) == truth
    && (!v.announced ==> After(v.pending, s, None) == truth)
  }

  ghost predicate OutsInv(owner: Owner, c: Cluster) {
    forall s :: owner(s) in c ==> OutInv(c[owner(s)], s)
  }

  /** The joiner's request has yet to reach the other instance. */
  ghost predicate SyncPending(c: Cluster, j: nat, i: nat)
    requires i in c && j in c
  {
    !c[j].announced || Sync(j) in c[j].wire || Sync(j) in c[i].queue
  }

  /** What `j` will have of `s` once it has handled everything under way to it. */
  function Heard(owner: Owner, c: Cluster, j: nat, s: Sub): Option<Record>
    requires j in c && owner(s) in c
  {
    After(c[j].queue + (c[owner(s)].wire + c[owner(s)].pending), s, Entry(c[j].node, s))
  }

  ghost predicate Agrees(owner: Owner, c: Cluster, j: nat, s: Sub) {
    j in c && owner(s) in c && c[j].bound && j != owner(s) ==>
      || Heard(owner, c, j, s) == Truth(owner, c, s)
      || (SyncPending(c, j, owner(s)) && Heard(owner, c, j, s) == None)
  }

  ghost predicate AgreeInv(owner: Owner, c: Cluster) {
    forall j, s :: Agrees(owner, c, j, s)
  }

  ghost predicate Inv(owner: Owner, c: Cluster) {
    InstancesInv(owner, c) && OutsInv(owner, c) && AgreeInv(owner, c)
  }

  // ---------------------------------------------------------------------------
  // Steps keep the invariant
  // ---------------------------------------------------------------------------

  lemma AnswerSaysOnlyIts(owner: Owner, ids: set<nat>, i: nat, node: Node, m: Message, replies: seq<Message>)
    requires MirrorInv(owner, ids, i, node) && IsAnswer(node, i, m, replies)
    ensures SaysOnlyIts(owner, i, replies)
  {
  }

  lemma HandledKeepsMirror(owner: Owner, ids: set<nat>, i: nat, node: Node, m: Message)
    requires MirrorInv(owner, ids, i, node) && Genuine(owner, m) && Sender(m) in ids
    ensures MirrorInv(owner, ids, i, Handled(node, i, m))
  {
  }

  lemma LocalKeepsInstance(owner: Owner, ids: set<nat>, i: nat, v: Instance, step: Step, v': Instance)
    requires i in ids && InstanceInv(owner, ids, i, v) && TakesLocally(owner, i, v, step, v')
    ensures InstanceInv(owner, ids, i, v')
  {
    if step.Handle? {
      AnswerSaysOnlyIts(owner, ids, i, v.node, v.queue[0], step.replies);
      HandledKeepsMirror(owner, ids, i, v.node, v.queue[0]);
      hide MirrorInv, IsAnswer, Handled;
    } else {
      hide HearsOnly, IsAnswer, Handled;
    }
  }

  lemma MoreInstances(owner: Owner, ids: set<nat>, ids': set<nat>, i: nat, v: Instance)
    requires InstanceInv(owner, ids, i, v) && ids <= ids'
    ensures InstanceInv(owner, ids', i, v)
  {
    hide Genuine;
  }

  lemma FanoutKeepsInstance(owner: Owner, ids: set<nat>, i: nat, v: Instance, m: Message)
    requires InstanceInv(owner, ids, i, v) && Genuine(owner, m) && Sender(m) in ids && v.bound
    ensures InstanceInv(owner, ids, i, v.(queue := v.queue + [m]))
  {
    hide Genuine, MirrorInv, SaysOnlyIts;
  }

  lemma SentKeepsInstance(owner: Owner, ids: set<nat>, i: nat, v: Instance)
    requires InstanceInv(owner, ids, i, v) && v.wire != []
    ensures InstanceInv(owner, ids, i, v.(wire := v.wire[1..])) && Genuine(owner, v.wire[0]) && Sender(v.wire[0]) == i
  {
    assert v.wire[0] in v.wire && forall m :: m in v.wire[1..] ==> m in v.wire;
    hide Genuine, MirrorInv, HearsOnly;
  }

  lemma StepKeepsInstances(owner: Owner, c: Cluster, step: Step, c': Cluster)
    requires InstancesInv(owner, c) && Takes(owner, c, step, c')
    ensures InstancesInv(owner, c')
  {
    forall j | j in c'
      ensures InstanceInv(owner, c'.Keys, j, c'[j])
    {
      if step.Start? {
        if j != step.i {
          hide InstanceInv;
          MoreInstances(owner, c.Keys, c'.Keys, j, c[j]);
        }
      } else if step.Deliver? {
        hide InstanceInv;
        assert c'.Keys == c.Keys;
        SentKeepsInstance(owner, c.Keys, step.i, c[step.i]);
        var v := if j == step.i then c[j].(wire := c[j].wire[1..]) else c[j];
        if c[j].bound {
          FanoutKeepsInstance(owner, c.Keys, j, v, c[step.i].wire[0]);
        }
      } else {
        hide InstanceInv, TakesLocally;
        assert c'.Keys == c.Keys;
        if j == step.i {
          LocalKeepsInstance(owner, c.Keys, j, c[j], step, c'[j]);
        }
      }
    }
  }

  // --- what is left to say

  lemma RestDecides(m: Message, rest: seq<Message>, s: Sub, truth: Option<Record>)
    requires After([m] + rest, s, truth) == truth
    ensures After(rest, s, truth) == truth
  {
    AfterJoin([m], rest, s, truth);
    AfterDecides(rest, s, truth, After([m], s, truth));
  }

  lemma ChangeKeepsOut(v: Instance, m: Message, v': Instance, s: Sub)
    requires OutInv(v, s) && v'.wire == v.wire && v'.announced == v.announced && v'.pending == v.pending + [m]
    requires Entry(v'.node, s) == Effect(m, s, Entry(v.node, s))
    ensures OutInv(v', s)
  {
    var t, t' := Entry(v.node, s), Entry(v'.node, s);
    AfterOne(m, s, After(v.pending, s, t'));
    AfterOne(m, s, After(v.pending, s, None));
    AfterOne(m, s, After(v.wire + v.pending, s, t'));
    AfterJoin(v.pending, [m], s, t');
    AfterJoin(v.pending, [m], s, None);
    AfterJoin(v.wire + v.pending, [m], s, t');
    assert v'.wire + v'.pending == v.wire + v.pending + [m];
  }

  /** After an answer the owner has said the truth about everything it owns. */
  lemma AnswerTells(owner: Owner, i: nat, node: Node, m: Message, replies: seq<Message>, s: Sub, entry: Option<Record>)
    requires owner(s) == i && IsAnswer(node, i, m, replies) && (forall t :: t in node.owned <==> t in node.mirror && owner(t) == i)
    requires forall t :: t in node.mirror ==> node.mirror[t].owner == owner(t)
    ensures After(replies, s, entry) == if Answers(node, i, m) && s in node.owned then Entry(node, s) else entry
  {
    if Answers(node, i, m) && s in node.owned {
      RepliesSay(replies, s, node.mirror[s], entry);
    } else {
      AfterUnmentioned(replies, s, entry);
    }
  }

  lemma {:induction false} RepliesSay(replies: seq<Message>, s: Sub, record: Record, entry: Option<Record>)
    requires forall m :: m in replies && About(m, s) ==> m == Claim(s, record)
    ensures After(replies, s, entry) == if Claim(s, record) in replies then Some(record) else entry
  {
    if replies != [] {
      assert replies[0] in replies;
      RepliesSay(replies[1..], s, record, Effect(replies[0], s, entry));
      assert replies == [replies[0]] + replies[1..];
    }
  }

  lemma LocalKeepsOut(owner: Owner, ids: set<nat>, i: nat, v: Instance, step: Step, v': Instance, s: Sub)
    requires InstanceInv(owner, ids, i, v) && OutInv(v, s) && owner(s) == i
    requires TakesLocally(owner, i, v, step, v') && !v.node.failed && !v'.node.failed
    ensures OutInv(v', s)
  {
    var truth := Entry(v.node, s);
    match step {
      case LocalClaim(_, sub, body) =>
        ChangeKeepsOut(v, Claim(sub, Record(i, body)), v', s);
      case LocalRelease(_, sub) =>
        ChangeKeepsOut(v, Release(i, sub), v', s);
      case Bind(_) =>
      case Announce(_) =>
        AfterWithout(v.wire, [Sync(i)], v.pending, s, truth);
      case Publish(_) =>
        assert v.pending == [v.pending[0]] + v.pending[1..];
        assert v'.wire + v'.pending == v.wire + v.pending;
        RestDecides(v.pending[0], v.pending[1..], s, truth);
      case Handle(_, replies) =>
        OwnEntryStays(owner, ids, i, v, s);
        AnswerTells(owner, i, v.node, v.queue[0], replies, s, After(v.wire, s, truth));
        AfterJoin(v.wire, replies, s, truth);
        AfterJoin(v.wire + replies, v.pending, s, truth);
        AfterJoin(v.wire, v.pending, s, truth);
    }
  }

  /** Gossip does not touch an instance's own subscriptions. */
  lemma OwnEntryStays(owner: Owner, ids: set<nat>, i: nat, v: Instance, s: Sub)
    requires InstanceInv(owner, ids, i, v) && owner(s) == i && v.queue != []
    requires !Handled(v.node, i, v.queue[0]).failed
    ensures Entry(Handled(v.node, i, v.queue[0]), s) == Entry(v.node, s)
  {
    assert v.queue[0] in v.queue;
  }

  lemma StepKeepsOut(owner: Owner, c: Cluster, step: Step, c': Cluster, s: Sub)
    requires InstancesInv(owner, c) && OutsInv(owner, c) && Healthy(c) && Healthy(c') && Takes(owner, c, step, c') && owner(s) in c'
    ensures OutInv(c'[owner(s)], s)
  {
    var i := owner(s);
    if step.Start? {
      if i != step.i {
        assert OutInv(c[i], s);
      }
    } else if step.Deliver? {
      assert OutInv(c[i], s);
      if i == step.i {
        var v, v' := c[i], c'[i];
        assert v.wire + v.pending == [v.wire[0]] + (v'.wire + v'.pending);
        RestDecides(v.wire[0], v'.wire + v'.pending, s, Entry(v.node, s));
      }
    } else {
      hide TakesLocally, InstanceInv, OutInv;
      assert OutInv(c[i], s);
      if i == step.i {
        LocalKeepsOut(owner, c.Keys, i, c[i], step, c'[i], s);
      }
    }
  }

  // --- what others will have heard

  /** Heard and pending are all that agreement depends on. */
  lemma SameAgrees(owner: Owner, c: Cluster, c': Cluster, j: nat, s: Sub)
    requires j in c && owner(s) in c && j in c' && owner(s) in c' && Agrees(owner, c, j, s) && c'[j].bound == c[j].bound
    requires Heard(owner, c', j, s) == Heard(owner, c, j, s) && Truth(owner, c', s) == Truth(owner, c, s)
    requires SyncPending(c, j, owner(s)) ==> SyncPending(c', j, owner(s))
    ensures Agrees(owner, c', j, s)
  {
  }

  /** Nobody has heard of an instance that was not there. */
  lemma StartKeepsAgrees(owner: Owner, c: Cluster, i: nat, c': Cluster, j: nat, s: Sub)
    requires InstancesInv(owner, c) && Agrees(owner, c, j, s) && Takes(owner, c, Start(i), c')
    ensures Agrees(owner, c', j, s)
  {
    if j in c && owner(s) == i {
      assert InstanceInv(owner, c.Keys, j, c[j]);
      assert c[j].queue + ([] + []) == c[j].queue;
      AfterUnmentioned(c[j].queue, s, None);
    }
  }

  lemma ChangeKeepsAgrees(owner: Owner, c: Cluster, i: nat, m: Message, c': Cluster, j: nat, s: Sub)
    requires Agrees(owner, c, j, s) && i in c && i in c' && c' == c[i := c'[i]] && !m.Sync?
    requires c'[i] == c[i].(node := c'[i].node, pending := c[i].pending + [m])
    requires forall t :: Entry(c'[i].node, t) == Effect(m, t, Entry(c[i].node, t))
    requires owner(m.sub) == i
    ensures Agrees(owner, c', j, s)
  {
    if j in c && owner(s) in c && c[j].bound && j != owner(s) {
      var k := owner(s);
      if k == i {
        var way := c[j].queue + (c[i].wire + c[i].pending);
        assert c'[j].queue + (c'[i].wire + c'[i].pending) == way + [m];
        AfterJoin(way, [m], s, Entry(c[j].node, s));
        AfterOne(m, s, After(way, s, Entry(c[j].node, s)));
      } else {
        SameAgrees(owner, c, c', j, s);
      }
    }
  }

  /** A joiner may have missed everything, but it has yet to ask. */
  lemma BindKeepsAgrees(owner: Owner, c: Cluster, i: nat, c': Cluster, j: nat, s: Sub)
    requires InstancesInv(owner, c) && OutsInv(owner, c) && Agrees(owner, c, j, s) && Takes(owner, c, Bind(i), c')
    ensures Agrees(owner, c', j, s)
  {
    if j in c && owner(s) in c && c'[j].bound && j != owner(s) {
      var k := owner(s);
      if j == i {
        assert InstanceInv(owner, c.Keys, j, c[j]) && OutInv(c[k], s);
        var way := c[k].wire + c[k].pending;
        assert [] + way == way && Entry(c[j].node, s) == None;
        AfterDecides(way, s, None, Truth(owner, c, s));
      } else {
        SameAgrees(owner, c, c', j, s);
      }
    }
  }

  lemma AnnounceKeepsAgrees(owner: Owner, c: Cluster, i: nat, c': Cluster, j: nat, s: Sub)
    requires Agrees(owner, c, j, s) && Takes(owner, c, Announce(i), c')
    ensures Agrees(owner, c', j, s)
  {
    if j in c && owner(s) in c && c[j].bound && j != owner(s) {
      var k := owner(s);
      if k == i {
        var a, b := c[j].queue + c[k].wire, c[k].pending;
        assert c[j].queue + (c[k].wire + c[k].pending) == a + b;
        assert c'[j].queue + (c'[k].wire + c'[k].pending) == a + [Sync(i)] + b;
        AfterWithout(a, [Sync(i)], b, s, Entry(c[j].node, s));
      }
      SameAgrees(owner, c, c', j, s);
    }
  }

  lemma PublishKeepsAgrees(owner: Owner, c: Cluster, i: nat, c': Cluster, j: nat, s: Sub)
    requires Agrees(owner, c, j, s) && Takes(owner, c, Publish(i), c')
    ensures Agrees(owner, c', j, s)
  {
    if j in c && owner(s) in c && c[j].bound && j != owner(s) {
      assert c'[i].wire + c'[i].pending == c[i].wire + c[i].pending;
      SameAgrees(owner, c, c', j, s);
    }
  }

  /** A message moves from its sender's channel to the queues; a request is lost only on instances that have yet to say everything. */
  lemma DeliverKeepsAgrees(owner: Owner, c: Cluster, i: nat, c': Cluster, j: nat, s: Sub)
    requires InstancesInv(owner, c) && OutsInv(owner, c) && Agrees(owner, c, j, s) && Takes(owner, c, Step.Deliver(i), c')
    ensures Agrees(owner, c', j, s)
  {
    if j in c && owner(s) in c && c[j].bound && j != owner(s) {
      var k, m := owner(s), c[i].wire[0];
      assert InstanceInv(owner, c.Keys, i, c[i]) && m in c[i].wire;
      DeliverKeepsHeard(owner, c, i, c', j, s);
      if SyncPending(c, j, k) && !SyncPending(c', j, k) {
        assert m == Sync(j) && !c[k].bound by {
          assert c[i].wire == [m] + c[i].wire[1..];
        }
        assert InstanceInv(owner, c.Keys, k, c[k]) && OutInv(c[k], s);
        var before := After(c[j].queue + c[k].wire, s, Entry(c[j].node, s));
        assert c[j].queue + (c[k].wire + c[k].pending) == c[j].queue + c[k].wire + c[k].pending;
        AfterJoin(c[j].queue + c[k].wire, c[k].pending, s, Entry(c[j].node, s));
        AfterDecides(c[k].pending, s, None, before);
      } else {
        SameAgrees(owner, c, c', j, s);
      }
    }
  }

  lemma DeliverKeepsHeard(owner: Owner, c: Cluster, i: nat, c': Cluster, j: nat, s: Sub)
    requires InstancesInv(owner, c) && Takes(owner, c, Step.Deliver(i), c')
    requires j in c && owner(s) in c && c[j].bound
    ensures Heard(owner, c', j, s) == Heard(owner, c, j, s)
  {
    var k, m, q := owner(s), c[i].wire[0], c[j].queue;
    assert InstanceInv(owner, c.Keys, i, c[i]) && m in c[i].wire;
    assert k == i || !About(m, s);
    assert c'[j].queue == q + [m] && c'[j].node == c[j].node && c'[k].pending == c[k].pending;
    assert c'[k].wire == if k == i then c[k].wire[1..] else c[k].wire;
    hide InstancesInv, Takes;
    if k == i {
      MovesUp(q, m, c[k].wire[1..], c[k].pending);
      assert c[k].wire == [m] + c[k].wire[1..];
    } else {
      AfterWithout(q, [m], c[k].wire + c[k].pending, s, Entry(c[j].node, s));
    }
  }

  lemma MovesUp(q: seq<Message>, m: Message, wire: seq<Message>, pending: seq<Message>)
    ensures q + [m] + (wire + pending) == q + ([m] + wire + pending)
  {
  }

  /** Handling a message moves it from the queue into the mirror. */
  lemma HandlerKeepsAgrees(owner: Owner, c: Cluster, j: nat, replies: seq<Message>, c': Cluster, s: Sub)
    requires InstancesInv(owner, c) && Agrees(owner, c, j, s) && Healthy(c) && Healthy(c') && Takes(owner, c, Handle(j, replies), c')
    ensures Agrees(owner, c', j, s)
  {
    if owner(s) in c && j != owner(s) {
      var k, m := owner(s), c[j].queue[0];
      assert InstanceInv(owner, c.Keys, j, c[j]) && m in c[j].queue;
      assert Genuine(owner, m);
      HandledEntry(owner, j, c[j].node, m, s);
      var rest := c[k].wire + c[k].pending;
      assert c[j].queue == [m] + c'[j].queue;
      assert c[j].queue + rest == [m] + (c'[j].queue + rest);
      AfterJoin([m], c'[j].queue + rest, s, Entry(c[j].node, s));
      AfterOne(m, s, Entry(c[j].node, s));
      SameAgrees(owner, c, c', j, s);
    }
  }

  lemma HandledEntry(owner: Owner, j: nat, node: Node, m: Message, s: Sub)
    requires Genuine(owner, m) && owner(s) != j && !node.failed && !node.closed && !Handled(node, j, m).failed
    ensures Entry(Handled(node, j, m), s) == Effect(m, s, Entry(node, s))
  {
  }

  /** An answer brings everybody up to date with whoever answers. */
  lemma AnswererKeepsAgrees(owner: Owner, c: Cluster, i: nat, replies: seq<Message>, c': Cluster, j: nat, s: Sub)
    requires InstancesInv(owner, c) && OutsInv(owner, c) && Agrees(owner, c, j, s) && Healthy(c) && Healthy(c')
    requires Takes(owner, c, Handle(i, replies), c') && owner(s) == i && j != i
    ensures Agrees(owner, c', j, s)
  {
    if j in c && c[j].bound {
      var v, m, entry := c[i], c[i].queue[0], Entry(c[j].node, s);
      var truth := Truth(owner, c, s);
      assert InstanceInv(owner, c.Keys, i, v) && OutInv(v, s);
      OwnEntryStays(owner, c.Keys, i, v, s);
      var heard := After(c[j].queue + v.wire, s, entry);
      AnswerTells(owner, i, v.node, m, replies, s, heard);
      AfterThrough(c[j].queue, v.wire, [], v.pending, s, entry);
      AfterThrough(c[j].queue, v.wire, replies, v.pending, s, entry);
      assert v.wire + [] == v.wire && After([], s, heard) == heard;
      assert c'[i].wire == v.wire + replies && c'[i].pending == v.pending && c'[j] == c[j];
      if !Answers(v.node, i, m) {
        assert v.queue == [m] + v.queue[1..];
        hide InstancesInv, OutsInv, IsAnswer, Heard;
        assert replies == [];
        SameAgrees(owner, c, c', j, s);
      }
    }
  }

  lemma AfterThrough(q: seq<Message>, wire: seq<Message>, replies: seq<Message>, pending: seq<Message>, s: Sub, entry: Option<Record>)
    ensures After(q + (wire + replies + pending), s, entry) == After(pending, s, After(replies, s, After(q + wire, s, entry)))
  {
    assert q + (wire + replies + pending) == q + wire + replies + pending;
    AfterJoin(q + wire + replies, pending, s, entry);
    AfterJoin(q + wire, replies, s, entry);
  }

  lemma HandleKeepsAgrees(owner: Owner, c: Cluster, i: nat, replies: seq<Message>, c': Cluster, j: nat, s: Sub)
    requires InstancesInv(owner, c) && OutsInv(owner, c) && Agrees(owner, c, j, s) && Healthy(c) && Healthy(c')
    requires Takes(owner, c, Handle(i, replies), c')
    ensures Agrees(owner, c', j, s)
  {
    if j in c && owner(s) in c && c[j].bound && j != owner(s) {
      if j == i {
        HandlerKeepsAgrees(owner, c, i, replies, c', s);
      } else if owner(s) == i {
        AnswererKeepsAgrees(owner, c, i, replies, c', j, s);
      } else {
        SameAgrees(owner, c, c', j, s);
      }
    }
  }

  lemma StepKeepsAgrees(owner: Owner, c: Cluster, step: Step, c': Cluster, j: nat, s: Sub)
    requires InstancesInv(owner, c) && OutsInv(owner, c) && Agrees(owner, c, j, s) && Healthy(c) && Healthy(c')
    requires Takes(owner, c, step, c')
    ensures Agrees(owner, c', j, s)
  {
    hide InstancesInv, OutsInv, Agrees, Healthy;
    match step {
      case Start(i) => StartKeepsAgrees(owner, c, i, c', j, s);
      case LocalClaim(i, sub, body) => ChangeKeepsAgrees(owner, c, i, Claim(sub, Record(i, body)), c', j, s);
      case LocalRelease(i, sub) => ChangeKeepsAgrees(owner, c, i, Release(i, sub), c', j, s);
      case Bind(i) => BindKeepsAgrees(owner, c, i, c', j, s);
      case Announce(i) => AnnounceKeepsAgrees(owner, c, i, c', j, s);
      case Publish(i) => PublishKeepsAgrees(owner, c, i, c', j, s);
      case Deliver(i) => DeliverKeepsAgrees(owner, c, i, c', j, s);
      case Handle(i, replies) => HandleKeepsAgrees(owner, c, i, replies, c', j, s);
    }
  }

  lemma StepKeepsInv(owner: Owner, c: Cluster, step: Step, c': Cluster)
    requires Inv(owner, c) && Healthy(c) && Healthy(c') && Takes(owner, c, step, c')
    ensures Inv(owner, c')
  {
    hide InstancesInv, Agrees, Healthy, Takes, OutInv;
    StepKeepsInstances(owner, c, step, c');
    forall s | owner(s) in c'
      ensures OutInv(c'[owner(s)], s)
    {
      StepKeepsOut(owner, c, step, c', s);
    }
    forall j, s
      ensures Agrees(owner, c', j, s)
    {
      StepKeepsAgrees(owner, c, step, c', j, s);
    }
  }

  lemma {:induction false} RunKeepsInv(owner: Owner, run: seq<Cluster>, i: nat)
    requires Run(owner, run) && i < |run|
    ensures Inv(owner, run[i])
  {
    if i > 0 {
      RunKeepsInv(owner, run, i - 1);
      assert StepAt(owner, run, i);
      var step :| Takes(owner, run[i - 1], step, run[i]);
      hide Inv, Takes;
      StepKeepsInv(owner, run[i - 1], step, run[i]);
    }
  }

  // ---------------------------------------------------------------------------
  // Convergence
  // ---------------------------------------------------------------------------

  /** Everybody has joined and every message has been handled. */
  ghost predicate Quiet(c: Cluster) {
    forall i :: i in c ==> c[i].announced && c[i].pending == [] && c[i].wire == [] && c[i].queue == []
  }

  /**
    However joins, claims, releases and sync requests raced: once every message is handled,
    every mirror holds exactly the subscriptions of all instances, as their owners have them.
  */
  lemma MirrorsConverge(owner: Owner, run: seq<Cluster>, n: nat, j: nat, s: Sub)
    requires Run(owner, run) && n < |run| && Quiet(run[n]) && j in run[n]
    ensures s in run[n][j].node.mirror <==> exists i :: i in run[n] && s in run[n][i].node.owned
    ensures forall i :: i in run[n] && s in run[n][i].node.owned ==>
              s in run[n][i].node.mirror && s in run[n][j].node.mirror
              && run[n][j].node.mirror[s] == run[n][i].node.mirror[s] && run[n][j].node.mirror[s].owner == i
  {
    RunKeepsInv(owner, run, n);
    var c, k := run[n], owner(s);
    assert InstanceInv(owner, c.Keys, j, c[j]);
    if k in c {
      assert InstanceInv(owner, c.Keys, k, c[k]);
      if j != k {
        assert Agrees(owner, c, j, s);
        assert c[j].queue + (c[k].wire + c[k].pending) == [];
        assert Entry(c[j].node, s) == Entry(c[k].node, s);
      }
      assert s in c[k].node.mirror <==> s in c[k].node.owned;
    }
    assert forall i :: i in c && s in c[i].node.owned ==> i == k by {
      assert forall i :: i in c ==> InstanceInv(owner, c.Keys, i, c[i]);
    }
  }

  /** Until then, once nothing about a subscription is under way and a joiner's request has been answered, they already agree on it. */
  lemma HeardMeansAgreed(owner: Owner, run: seq<Cluster>, n: nat, j: nat, s: Sub)
    requires Run(owner, run) && n < |run| && j in run[n] && run[n][j].bound && owner(s) in run[n] && j != owner(s)
    requires !SyncPending(run[n], j, owner(s))
    ensures After(run[n][j].queue + (run[n][owner(s)].wire + run[n][owner(s)].pending), s, Entry(run[n][j].node, s)) ==
            Entry(run[n][owner(s)].node, s)
  {
    RunKeepsInv(owner, run, n);
    assert Agrees(owner, run[n], j, s);
  }

  // ---------------------------------------------------------------------------
  // What the mirrors hold, told by the calls
  // ---------------------------------------------------------------------------

  ghost predicate StepsTo(owner: Owner, run: seq<Cluster>, steps: seq<Step>, i: nat) {
    i < |steps| && i + 1 < |run| ==> Takes(owner, run[i], steps[i], run[i + 1])
  }

  ghost predicate RunsBy(owner: Owner, run: seq<Cluster>, steps: seq<Step>) {
    && |run| == |steps| + 1 && run[0] == map[]
    && (forall i: nat :: StepsTo(owner, run, steps, i))
    && (forall i :: 0 <= i < |run| ==> Healthy(run[i]))
  }

  lemma StepsMakeARun(owner: Owner, run: seq<Cluster>, steps: seq<Step>)
    requires RunsBy(owner, run, steps)
    ensures Run(owner, run)
  {
    hide Healthy, Takes;
    forall i: nat
      ensures StepAt(owner, run, i)
    {
      assert i > 0 ==> StepsTo(owner, run, steps, i - 1);
    }
  }

  /** What the last call about a subscription made of it: the last claim, unless it has been released since. */
  function Called(steps: seq<Step>, s: Sub): Option<Record> {
    if steps == [] then None
    else
      var last := steps[|steps| - 1];
      if last.LocalClaim? && last.sub == s then Some(Record(last.i, last.body))
      else if last.LocalRelease? && last.sub == s then None
      else Called(steps[..|steps| - 1], s)
  }

  /** What a step makes of an owner's entry: a claim or release of it, or what it was. */
  function AfterCall(step: Step, s: Sub, entry: Option<Record>): Option<Record> {
    if step.LocalClaim? && step.sub == s then Some(Record(step.i, step.body))
    else if step.LocalRelease? && step.sub == s then None
    else entry
  }

  lemma OwnEntryLocally(owner: Owner, ids: set<nat>, i: nat, v: Instance, step: Step, v': Instance, s: Sub)
    requires InstanceInv(owner, ids, i, v) && TakesLocally(owner, i, v, step, v') && step.i == i && owner(s) == i && !v'.node.failed
    ensures Entry(v'.node, s) == AfterCall(step, s, Entry(v.node, s))
  {
    if step.Handle? {
      OwnEntryStays(owner, ids, i, v, s);
    }
    hide InstanceInv, IsAnswer, Handled;
  }

  /** A step changes what an owner has of a subscription only if it is a call about it. */
  lemma OwnEntryOfStep(owner: Owner, c: Cluster, step: Step, c': Cluster, s: Sub)
    requires InstancesInv(owner, c) && Healthy(c') && Takes(owner, c, step, c')
    ensures owner(s) in c ==> owner(s) in c' && Entry(c'[owner(s)].node, s) == AfterCall(step, s, Entry(c[owner(s)].node, s))
    ensures owner(s) !in c ==> AfterCall(step, s, None) == None && (owner(s) in c' ==> Entry(c'[owner(s)].node, s) == None)
  {
    hide InstanceInv, TakesLocally;
    if !step.Start? && !step.Deliver? {
      CallsAreTheOwners(owner, c[step.i], step, c'[step.i]);
      if owner(s) == step.i {
        OwnEntryLocally(owner, c.Keys, step.i, c[step.i], step, c'[step.i], s);
      }
    }
  }

  lemma CallsAreTheOwners(owner: Owner, v: Instance, step: Step, v': Instance)
    requires TakesLocally(owner, step.i, v, step, v')
    ensures step.LocalClaim? || step.LocalRelease? ==> owner(step.sub) == step.i
  {
    hide IsAnswer, Handled;
  }

  /** An owner has of its subscription what the last call made of it. */
  lemma {:induction false} OwnersHaveWhatWasCalled(owner: Owner, run: seq<Cluster>, steps: seq<Step>, n: nat, s: Sub)
    requires RunsBy(owner, run, steps) && n < |run|
    ensures Called(steps[..n], s) == if owner(s) in run[n] then Entry(run[n][owner(s)].node, s) else None
  {
    if n > 0 {
      OwnersHaveWhatWasCalled(owner, run, steps, n - 1, s);
      StepsMakeARun(owner, run, steps);
      RunKeepsInv(owner, run, n - 1);
      assert StepsTo(owner, run, steps, n - 1);
      OwnEntryOfStep(owner, run[n - 1], steps[n - 1], run[n], s);
      hide Takes, RunsBy, Inv;
      assert steps[..n][..n - 1] == steps[..n - 1];
      assert Called(steps[..n], s) == AfterCall(steps[n - 1], s, Called(steps[..n - 1], s));
    }
  }

  /** Once every message is handled, every instance has of every subscription what the last call made of it. */
  lemma MirrorsHoldWhatWasCalled(owner: Owner, run: seq<Cluster>, steps: seq<Step>, n: nat, j: nat, s: Sub)
    requires RunsBy(owner, run, steps) && n < |run| && Quiet(run[n]) && j in run[n]
    ensures Entry(run[n][j].node, s) == Called(steps[..n], s)
  {
    OwnersHaveWhatWasCalled(owner, run, steps, n, s);
    StepsMakeARun(owner, run, steps);
    RunKeepsInv(owner, run, n);
    MirrorsConverge(owner, run, n, j, s);
    var c := run[n];
    assert InstanceInv(owner, c.Keys, j, c[j]);
    hide Run, RunsBy, Called;
    if owner(s) in c {
      assert InstanceInv(owner, c.Keys, owner(s), c[owner(s)]);
    }
  }

  /** While anything is left to connect, publish, deliver or handle, some instance can go on with it. */
  lemma SomethingCanBeDone(owner: Owner, c: Cluster) returns (step: Step, c': Cluster)
    requires Healthy(c) && !Quiet(c)
    ensures Takes(owner, c, step, c') && !step.Start? && !step.LocalClaim? && !step.LocalRelease?
  {
    var i :| i in c && !(c[i].announced && c[i].pending == [] && c[i].wire == [] && c[i].queue == []);
    var v := c[i];
    if !v.bound {
      step, c' := Bind(i), c[i := v.(bound := true)];
    } else if !v.announced {
      step, c' := Announce(i), c[i := v.(announced := true, wire := v.wire + [Sync(i)])];
    } else if v.pending != [] {
      step, c' := Publish(i), c[i := v.(wire := v.wire + [v.pending[0]], pending := v.pending[1..])];
    } else if v.wire != [] {
      step, c' := Step.Deliver(i), Fanout(c[i := v.(wire := v.wire[1..])], v.wire[0]);
    } else {
      var replies := SomeAnswer(v.node, i, v.queue[0]);
      hide IsAnswer;
      step := Handle(i, replies);
      c' := c[i := v.(node := Handled(v.node, i, v.queue[0]), queue := v.queue[1..], wire := v.wire + replies)];
    }
  }

  lemma SomeAnswer(node: Node, me: nat, m: Message) returns (replies: seq<Message>)
    ensures IsAnswer(node, me, m, replies)
  {
    replies := [];
    if Answers(node, me, m) {
      var todo := node.owned;
      while todo != {}
        invariant todo <= node.owned
        invariant forall r :: r in replies ==> r.Claim? && r.sub in node.owned && r.sub in node.mirror && r.record == Record(me, node.mirror[r.sub].body)
        invariant forall s :: s in node.owned - todo && s in node.mirror ==> Claim(s, Record(me, node.mirror[s].body)) in replies
        decreases |todo|
      {
        var s :| s in todo;
        if s in node.mirror {
          replies := replies + [Claim(s, Record(me, node.mirror[s].body))];
        }
        todo := todo - {s};
      }
    }
  }
}
