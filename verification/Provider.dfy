/**
  The provider's side of one subscription query: updates go out while the subscriber has
  granted permits, wait in order when it has not, and a terminal event waits behind them.
*/
module Provider {
  import opened Wrappers

  const MaxHeldUpdates: nat := 1024

  type Update = string

  datatype Terminal = Complete | Failure(message: string) | Overflow

  datatype Sent = Upd(update: Update) | End(terminal: Terminal)

  /** `live` is being in the map of provided subscriptions; `accepted` and `granted` are histories. */
  datatype Sub = Sub(permits: nat, held: seq<Update>, ending: Option<Terminal>, live: bool, sent: seq<Sent>, accepted: seq<Update>, granted: nat)

  datatype Op = Offer(update: Update) | Grant(permits: nat) | Finish(terminal: Terminal) | Cancel

  function Opened(permits: nat): Sub {
    Sub(permits, [], None, true, [], [], permits)
  }

  // ---------------------------------------------------------------------------
  // Steps
  // ---------------------------------------------------------------------------

  function SendHeld(s: Sub): Sub
    decreases |s.held|
  {
    if s.permits == 0 || s.held == [] then s
    else SendHeld(s.(permits := s.permits - 1, held := s.held[1..], sent := s.sent + [Upd(s.held[0])]))
  }

  function EndIfEmpty(s: Sub): Sub {
    if s.held == [] && s.ending.Some? then s.(sent := s.sent + [End(s.ending.value)], live := false) else s
  }

  function Drained(s: Sub): Sub {
    EndIfEmpty(SendHeld(s))
  }

  function Offered(s: Sub, u: Update): Sub {
    if s.ending.Some? then s
    else if s.permits > 0 && s.held == [] then
      s.(permits := s.permits - 1, sent := s.sent + [Upd(u)], accepted := s.accepted + [u])
    else if |s.held| >= MaxHeldUpdates then s.(sent := s.sent + [End(Overflow)], live := false)
    else s.(held := s.held + [u], accepted := s.accepted + [u])
  }

  /** Only a subscription still provided is offered, granted, finished or cancelled anything. */
  function Apply(s: Sub, op: Op): Sub {
    if !s.live then s
    else match op
      case Offer(u) => Offered(s, u)
      case Grant(n) => Drained(s.(permits := s.permits + n, granted := s.granted + n))
      case Finish(t) => Drained(s.(ending := Some(t)))
      case Cancel => s.(live := false)
  }

  function ApplyAll(s: Sub, ops: seq<Op>): Sub
    decreases |ops|
  {
    if ops == [] then s else ApplyAll(Apply(s, ops[0]), ops[1..])
  }

  class ProvidedSubscription {
    var permits: nat
    var held: seq<Update>
    var ending: Option<Terminal>
    var live: bool
    var sent: seq<Sent>
    ghost var accepted: seq<Update>
    ghost var granted: nat

    ghost function View(): Sub
      reads this
    {
      Sub(permits, held, ending, live, sent, accepted, granted)
    }

    constructor (permits: nat)
      ensures View() == Opened(permits)
    {
      this.permits, held, ending, live, sent := permits, [], None, true, [];
      accepted, granted := [], permits;
    }

    method Drain()
      modifies this`permits, this`held, this`sent, this`live
      ensures View() == Drained(old(View()))
    {
      while permits > 0 && |held| > 0
        invariant SendHeld(View()) == SendHeld(old(View())) && live == old(live)
        decreases |held|
      {
        permits := permits - 1;
        sent := sent + [Upd(held[0])];
        held := held[1..];
      }
      if |held| == 0 && ending.Some? {
        sent := sent + [End(ending.value)];
        live := false;
      }
    }

    method Offer(update: Update)
      modifies this
      ensures View() == Apply(old(View()), Op.Offer(update))
    {
      if !live || ending.Some? {
        return;
      }
      if permits > 0 && |held| == 0 {
        permits := permits - 1;
        sent := sent + [Upd(update)];
        accepted := accepted + [update];
      } else if |held| >= MaxHeldUpdates {
        sent := sent + [End(Overflow)];
        live := false;
      } else {
        held := held + [update];
        accepted := accepted + [update];
      }
    }

    method Grant(n: nat)
      modifies this
      ensures View() == Apply(old(View()), Op.Grant(n))
    {
      if live {
        permits := permits + n;
        granted := granted + n;
        Drain();
      }
    }

    method Finish(terminal: Terminal)
      modifies this
      ensures View() == Apply(old(View()), Op.Finish(terminal))
    {
      if live {
        ending := Some(terminal);
        Drain();
      }
    }

    method Cancel()
      modifies this`live
      ensures View() == Apply(old(View()), Op.Cancel)
    {
      live := false;
    }
  }

  // ---------------------------------------------------------------------------
  // What every run keeps
  // ---------------------------------------------------------------------------

  function Updates(sent: seq<Sent>): seq<Update> {
    if sent == [] then []
    else (if sent[0].Upd? then [sent[0].update] else []) + Updates(sent[1..])
  }

  ghost predicate NoEnd(sent: seq<Sent>) {
    forall i :: 0 <= i < |sent| ==> sent[i].Upd?
  }

  lemma FirstUpdate(sent: seq<Sent>)
    requires sent != []
    ensures Updates(sent) == (if sent[0].Upd? then [sent[0].update] else []) + Updates(sent[1..])
  {
  }

  lemma {:induction false} UpdatesSnoc(sent: seq<Sent>, one: Sent)
    ensures Updates(sent + [one]) == Updates(sent) + if one.Upd? then [one.update] else []
  {
    assert Updates([]) == [];
    var all := sent + [one];
    FirstUpdate(all);
    hide Updates;
    if sent == [] {
      assert all[0] == one && all[1..] == [];
    } else {
      assert all[0] == sent[0] && all[1..] == sent[1..] + [one];
      FirstUpdate(sent);
      UpdatesSnoc(sent[1..], one);
    }
  }

  /** What holds between steps and, while it drains, within one. */
  ghost predicate Flow(s: Sub) {
    && s.accepted == Updates(s.sent) + s.held && |Updates(s.sent)| + s.permits == s.granted
    && |s.held| <= MaxHeldUpdates
    && (s.live ==> NoEnd(s.sent))
  }

  ghost predicate Idle(s: Sub) {
    s.live ==> (s.held != [] ==> s.permits == 0) && (s.ending.Some? ==> s.held != [])
  }

  ghost predicate Inv(s: Sub) {
    && Flow(s) && Idle(s)
    && (NoEnd(s.sent) || EndsWell(s))
  }

  /** One terminal event, at the very end; a terminal event that was asked for follows every accepted update. */
  ghost predicate EndsWell(s: Sub) {
    && !s.live && s.sent != [] && s.sent[|s.sent| - 1].End? && NoEnd(s.sent[..|s.sent| - 1])
    && (s.ending.Some? ==> s.held == [] && s.sent[|s.sent| - 1].terminal == s.ending.value)
    && (s.ending.None? ==> s.sent[|s.sent| - 1].terminal == Overflow)
  }

  lemma {:induction false} SendHeldKeeps(s: Sub)
    requires Flow(s) && s.live
    ensures Flow(SendHeld(s)) && SendHeld(s).live && SendHeld(s).ending == s.ending
    ensures SendHeld(s).held == [] || SendHeld(s).permits == 0
    ensures SendHeld(s).accepted == s.accepted && SendHeld(s).granted == s.granted
    decreases |s.held|
  {
    if s.permits > 0 && s.held != [] {
      var t := s.(permits := s.permits - 1, held := s.held[1..], sent := s.sent + [Upd(s.held[0])]);
      UpdatesSnoc(s.sent, Upd(s.held[0]));
      assert s.held == [s.held[0]] + s.held[1..];
      SendHeldKeeps(t);
    }
  }

  lemma EndKeeps(s: Sub, terminal: Terminal, t: Sub)
    requires Flow(s) && s.live && t == s.(sent := s.sent + [End(terminal)], live := false)
    ensures Flow(t) && NoEnd(t.sent[..|t.sent| - 1])
  {
    UpdatesSnoc(s.sent, End(terminal));
    assert t.sent[..|t.sent| - 1] == s.sent;
  }

  lemma DrainedKeeps(s: Sub)
    requires Flow(s) && s.live
    ensures Inv(Drained(s))
  {
    hide Flow, NoEnd;
    SendHeldKeeps(s);
    var t := SendHeld(s);
    if t.held == [] && t.ending.Some? {
      EndKeeps(t, t.ending.value, EndIfEmpty(t));
    } else {
      LiveHasNoEnd(t);
    }
  }

  lemma LiveHasNoEnd(s: Sub)
    requires Flow(s) && s.live
    ensures NoEnd(s.sent)
  {
  }

  lemma SendKeeps(s: Sub, u: Update)
    requires Flow(s) && s.live && s.permits > 0 && s.held == []
    ensures var t := s.(permits := s.permits - 1, sent := s.sent + [Upd(u)], accepted := s.accepted + [u]);
            Flow(t) && NoEnd(t.sent)
  {
    UpdatesSnoc(s.sent, Upd(u));
  }

  lemma HoldKeeps(s: Sub, u: Update)
    requires Flow(s) && s.live && |s.held| < MaxHeldUpdates
    ensures Flow(s.(held := s.held + [u], accepted := s.accepted + [u]))
  {
  }

  lemma OfferKeepsInv(s: Sub, u: Update)
    requires Inv(s) && s.live
    ensures Inv(Offered(s, u))
  {
    LiveHasNoEnd(s);
    hide Flow, NoEnd;
    if s.ending.None? {
      if s.permits > 0 && s.held == [] {
        SendKeeps(s, u);
      } else if |s.held| >= MaxHeldUpdates {
        EndKeeps(s, Overflow, s.(sent := s.sent + [End(Overflow)], live := false));
      } else {
        HoldKeeps(s, u);
      }
    }
  }

  lemma ApplyKeepsInv(s: Sub, op: Op)
    requires Inv(s)
    ensures Inv(Apply(s, op))
  {
    if s.live {
      match op {
        case Offer(u) => OfferKeepsInv(s, u);
        case Grant(n) => DrainedKeeps(s.(permits := s.permits + n, granted := s.granted + n));
        case Finish(t) => DrainedKeeps(s.(ending := Some(t)));
        case Cancel => hide NoEnd, Updates;
      }
    }
  }

  lemma {:induction false} RunKeepsInv(s: Sub, ops: seq<Op>)
    requires Inv(s)
    ensures Inv(ApplyAll(s, ops))
    decreases |ops|
  {
    if ops != [] {
      ApplyKeepsInv(s, ops[0]);
      RunKeepsInv(Apply(s, ops[0]), ops[1..]);
    }
  }

  /**
    Over every run: updates go out in order as a prefix of those accepted, never more than
    permits granted; updates wait only when there is no permit; there is at most one terminal
    event and nothing after it; and one that is not an overflow follows every accepted update.
  */
  lemma UpdatesGoOutInOrder(permits: nat, ops: seq<Op>)
    ensures var s := ApplyAll(Opened(permits), ops);
            && Updates(s.sent) <= s.accepted && |Updates(s.sent)| <= s.granted && |s.held| <= MaxHeldUpdates
            && (s.live && s.held != [] ==> s.permits == 0)
            && (forall i :: 0 <= i < |s.sent| && s.sent[i].End? ==> i == |s.sent| - 1)
            && (forall i :: 0 <= i < |s.sent| && s.sent[i].End? && s.sent[i].terminal != Overflow ==> Updates(s.sent) == s.accepted)
  {
    assert Updates([]) == [];
    RunKeepsInv(Opened(permits), ops);
    var s := ApplyAll(Opened(permits), ops);
    assert Updates(s.sent) <= s.accepted;
    if !NoEnd(s.sent) {
      var before := s.sent[..|s.sent| - 1];
      assert forall i :: 0 <= i < |before| ==> s.sent[i] == before[i];
    }
  }

  lemma {:induction false} NothingAfterwards(s: Sub, ops: seq<Op>)
    requires !s.live
    ensures ApplyAll(s, ops) == s
  {
    if ops != [] {
      NothingAfterwards(s, ops[1..]);
    }
  }

  // ---------------------------------------------------------------------------
  // What is sent, told by the operations alone
  // ---------------------------------------------------------------------------

  /** The updates offered, in order. */
  function Offers(ops: seq<Op>): seq<Update> {
    if ops == [] then []
    else Offers(ops[..|ops| - 1]) + if ops[|ops| - 1].Offer? then [ops[|ops| - 1].update] else []
  }

  function Granted(permits: nat, ops: seq<Op>): nat {
    if ops == [] then permits
    else Granted(permits, ops[..|ops| - 1]) + if ops[|ops| - 1].Grant? then ops[|ops| - 1].permits else 0
  }

  predicate Ordinary(op: Op) {
    op.Offer? || op.Grant?
  }

  ghost predicate AllOrdinary(ops: seq<Op>) {
    forall i :: 0 <= i < |ops| ==> Ordinary(ops[i])
  }

  /** At no point were more updates offered than permits and the buffer have room for. */
  ghost predicate NeverOverflows(permits: nat, ops: seq<Op>) {
    forall i: nat :: RoomAt(permits, ops, i)
  }

  ghost predicate RoomAt(permits: nat, ops: seq<Op>, i: nat) {
    i <= |ops| ==> |Offers(ops[..i])| <= Granted(permits, ops[..i]) + MaxHeldUpdates
  }

  lemma {:induction false} LastOp(s: Sub, ops: seq<Op>)
    requires ops != []
    ensures ApplyAll(s, ops) == Apply(ApplyAll(s, ops[..|ops| - 1]), ops[|ops| - 1])
    decreases |ops|
  {
    hide Apply;
    var n := |ops| - 1;
    if n == 0 {
      assert ops[..0] == [] && ops[1..] == [];
      assert ApplyAll(Apply(s, ops[0]), ops[1..]) == Apply(s, ops[0]);
    } else {
      LastOp(Apply(s, ops[0]), ops[1..]);
      assert ops[1..][..n - 1] == ops[..n][1..];
    }
  }

  lemma SameRoom(permits: nat, ops: seq<Op>, i: nat)
    requires ops != [] && i < |ops|
    ensures RoomAt(permits, ops, i) <==> RoomAt(permits, ops[..|ops| - 1], i)
  {
    assert ops[..i] == ops[..|ops| - 1][..i];
  }

  lemma RoomBeyond(permits: nat, ops: seq<Op>, i: nat)
    ensures i > |ops| ==> RoomAt(permits, ops, i)
    ensures RoomAt(permits, ops, |ops|) <==> |Offers(ops)| <= Granted(permits, ops) + MaxHeldUpdates
  {
    assert ops[..|ops|] == ops;
  }

  /** No room at some point before is no room now, and the last point is the whole. */
  lemma RoomGoesOn(permits: nat, ops: seq<Op>)
    requires ops != []
    ensures NeverOverflows(permits, ops) <==>
            NeverOverflows(permits, ops[..|ops| - 1]) && |Offers(ops)| <= Granted(permits, ops) + MaxHeldUpdates
  {
    hide Offers, Granted, RoomAt;
    var init := ops[..|ops| - 1];
    RoomBeyond(permits, ops, 0);
    if NeverOverflows(permits, ops) {
      forall i: nat
        ensures RoomAt(permits, init, i)
      {
        if i < |ops| {
          SameRoom(permits, ops, i);
        } else {
          RoomBeyond(permits, init, i);
        }
      }
    }
    if NeverOverflows(permits, init) && RoomAt(permits, ops, |ops|) {
      forall i: nat
        ensures RoomAt(permits, ops, i)
      {
        if i < |ops| {
          SameRoom(permits, ops, i);
        } else {
          RoomBeyond(permits, ops, i);
        }
      }
    }
  }

  /** What an open subscription has taken in and what it has left. */
  ghost predicate Accounts(s: Sub, offers: seq<Update>, granted: nat) {
    s.ending.None? && s.accepted == offers && s.granted == granted
  }

  lemma OrdinaryApplied(s: Sub, op: Op, offers: seq<Update>, granted: nat)
    requires Inv(s) && s.live && Ordinary(op) && Accounts(s, offers, granted) && |offers| <= granted + MaxHeldUpdates
    ensures var s' := Apply(s, op);
            && (op.Grant? ==> s'.live && Accounts(s', offers, granted + op.permits))
            && (op.Offer? ==> (s'.live <==> |offers| < granted + MaxHeldUpdates))
            && (op.Offer? && s'.live ==> Accounts(s', offers + [op.update], granted))
            && (op.Offer? && !s'.live ==> s'.sent == s.sent + [End(Overflow)])
  {
    if op.Grant? {
      var t := s.(permits := s.permits + op.permits, granted := s.granted + op.permits);
      SendHeldKeeps(t);
    } else {
      assert |s.accepted| == |Updates(s.sent)| + |s.held|;
    }
  }

  /**
    While nobody finishes or cancels: the subscription is alive if and only if the buffer never
    had to take more than it holds; then every update offered has been accepted, in order, and
    otherwise the overflow has been told.
  */
  lemma {:induction false} OrdinaryRun(permits: nat, ops: seq<Op>)
    requires AllOrdinary(ops)
    ensures var s := ApplyAll(Opened(permits), ops);
            && Inv(s) && (s.live <==> NeverOverflows(permits, ops))
            && (s.live ==> Accounts(s, Offers(ops), Granted(permits, ops)))
            && (!s.live ==> s.sent != [] && s.sent[|s.sent| - 1] == End(Overflow))
    decreases |ops|
  {
    assert Updates([]) == [];
    RunKeepsInv(Opened(permits), ops);
    hide Apply, ApplyAll, Inv, NeverOverflows, Accounts;
    if ops == [] {
      NoOps(permits);
    } else {
      var n := |ops| - 1;
      var init, op := ops[..n], ops[n];
      OrdinaryRun(permits, init);
      LastOp(Opened(permits), ops);
      RoomGoesOn(permits, ops);
      var s := ApplyAll(Opened(permits), init);
      if s.live {
        RoomNow(permits, init);
        OrdinaryApplied(s, op, Offers(init), Granted(permits, init));
      } else {
        StaysGone(s, op);
      }
    }
  }

  lemma NoOps(permits: nat)
    ensures ApplyAll(Opened(permits), []) == Opened(permits) && Opened(permits).live
    ensures NeverOverflows(permits, []) && Accounts(Opened(permits), Offers([]), Granted(permits, []))
  {
    forall i: nat
      ensures RoomAt(permits, [], i)
    {
      var none: seq<Op> := [];
      assert none[..0] == none;
    }
  }

  lemma RoomNow(permits: nat, ops: seq<Op>)
    requires NeverOverflows(permits, ops)
    ensures |Offers(ops)| <= Granted(permits, ops) + MaxHeldUpdates
  {
    assert RoomAt(permits, ops, |ops|) && ops[..|ops|] == ops;
  }

  lemma StaysGone(s: Sub, op: Op)
    requires !s.live
    ensures Apply(s, op) == s
  {
  }

  function Min(a: nat, b: nat): nat {
    if a < b then a else b
  }

  /**
    While nobody finishes or cancels and the buffer has room, what has been sent is exactly as
    many of the updates offered as permits were granted, the first ones in order; the rest waits.
  */
  lemma SentExactly(permits: nat, ops: seq<Op>)
    requires AllOrdinary(ops) && NeverOverflows(permits, ops)
    ensures var s, offers := ApplyAll(Opened(permits), ops), Offers(ops);
            var n := Min(Granted(permits, ops), |offers|);
            && s.live && |s.sent| == n && s.held == offers[n..]
            && (forall i :: 0 <= i < n ==> s.sent[i] == Upd(offers[i]))
  {
    OrdinaryRun(permits, ops);
    hide ApplyAll, NeverOverflows;
    var s := ApplyAll(Opened(permits), ops);
    AllUpdates(s.sent);
  }

  lemma {:induction false} AllUpdates(sent: seq<Sent>)
    requires NoEnd(sent)
    ensures |Updates(sent)| == |sent| && forall i :: 0 <= i < |sent| ==> sent[i] == Upd(Updates(sent)[i])
  {
    if sent != [] {
      AllUpdates(sent[1..]);
      assert Updates(sent) == [sent[0].update] + Updates(sent[1..]);
    }
  }

  // --- finishing and cancelling

  /** A subscription that is to end: what it takes in is settled, and it ends once all of that has gone out. */
  ghost predicate Finishing(s: Sub, offers: seq<Update>, granted: nat, terminal: Terminal) {
    && s.accepted == offers && s.ending == Some(terminal)
    && (s.live <==> granted < |offers|)
    && (s.live ==> s.granted == granted)
    && (!s.live ==> Updates(s.sent) == offers && s.sent != [] && s.sent[|s.sent| - 1] == End(terminal) && NoEnd(s.sent[..|s.sent| - 1]))
  }

  lemma DrainedFinishes(s: Sub, offers: seq<Update>, granted: nat, terminal: Terminal)
    requires Flow(s) && s.live && s.accepted == offers && s.granted == granted && s.ending == Some(terminal)
    ensures Finishing(Drained(s), offers, granted, terminal)
  {
    SendHeldKeeps(s);
    var t := SendHeld(s);
    LiveHasNoEnd(t);
    if t.held == [] {
      UpdatesSnoc(t.sent, End(terminal));
      assert Drained(s).sent[..|t.sent|] == t.sent;
    }
  }

  lemma FinishingApplied(s: Sub, op: Op, offers: seq<Update>, granted: nat, terminal: Terminal)
    requires Inv(s) && Ordinary(op) && Finishing(s, offers, granted, terminal)
    ensures Finishing(Apply(s, op), offers, granted + if op.Grant? then op.permits else 0, terminal)
  {
    if s.live && op.Grant? {
      DrainedFinishes(s.(permits := s.permits + op.permits, granted := s.granted + op.permits), offers, granted + op.permits, terminal);
    }
  }

  lemma {:induction false} FinishingRun(s: Sub, ops: seq<Op>, offers: seq<Update>, granted: nat, terminal: Terminal)
    requires Inv(s) && AllOrdinary(ops) && Finishing(s, offers, granted, terminal)
    ensures Finishing(ApplyAll(s, ops), offers, Granted(granted, ops), terminal)
    decreases |ops|
  {
    hide Apply, Inv, Finishing;
    if ops != [] {
      var n := |ops| - 1;
      FinishingRun(s, ops[..n], offers, granted, terminal);
      RunKeepsInv(s, ops[..n]);
      LastOp(s, ops);
      FinishingApplied(ApplyAll(s, ops[..n]), ops[n], offers, Granted(granted, ops[..n]), terminal);
    }
  }

  /**
    A subscription that is finished sends every update offered before that, none offered after,
    and then the terminal event: it has ended if and only if as many permits have been granted.
  */
  lemma FinishSendsTheRest(permits: nat, before: seq<Op>, terminal: Terminal, after: seq<Op>)
    requires AllOrdinary(before) && NeverOverflows(permits, before) && AllOrdinary(after)
    ensures var s, offers := ApplyAll(ApplyAll(Opened(permits), before + [Finish(terminal)]), after), Offers(before);
            && (!s.live <==> |offers| <= Granted(Granted(permits, before), after))
            && (!s.live ==> |s.sent| == |offers| + 1 && s.sent[|offers|] == End(terminal))
            && (!s.live ==> forall i :: 0 <= i < |offers| ==> s.sent[i] == Upd(offers[i]))
  {
    hide ApplyAll, NeverOverflows, Inv, Finishing, AllOrdinary;
    var t := ApplyAll(Opened(permits), before + [Finish(terminal)]);
    FinishBegins(permits, before, terminal);
    FinishingRun(t, after, Offers(before), Granted(permits, before), terminal);
    FinishedSends(ApplyAll(t, after), Offers(before), Granted(Granted(permits, before), after), terminal);
  }

  lemma FinishBegins(permits: nat, before: seq<Op>, terminal: Terminal)
    requires AllOrdinary(before) && NeverOverflows(permits, before)
    ensures var t := ApplyAll(Opened(permits), before + [Finish(terminal)]);
            Inv(t) && Finishing(t, Offers(before), Granted(permits, before), terminal)
  {
    hide NeverOverflows, ApplyAll, Finishing, AllOrdinary;
    OrdinaryRun(permits, before);
    var s, ops := ApplyAll(Opened(permits), before), before + [Finish(terminal)];
    assert ops[..|ops| - 1] == before;
    LastOp(Opened(permits), ops);
    ApplyKeepsInv(s, Finish(terminal));
    hide Drained, NoEnd, Updates;
    DrainedFinishes(s.(ending := Some(terminal)), Offers(before), Granted(permits, before), terminal);
  }

  lemma FinishedSends(s: Sub, offers: seq<Update>, granted: nat, terminal: Terminal)
    requires Finishing(s, offers, granted, terminal)
    ensures !s.live <==> |offers| <= granted
    ensures !s.live ==> |s.sent| == |offers| + 1 && s.sent[|offers|] == End(terminal)
    ensures !s.live ==> forall i :: 0 <= i < |offers| ==> s.sent[i] == Upd(offers[i])
  {
    if !s.live {
      var sent := s.sent[..|s.sent| - 1];
      AllUpdates(sent);
      assert s.sent == sent + [End(terminal)];
      UpdatesSnoc(sent, End(terminal));
    }
  }

  /** Of several terminal events asked for before the end, the last is the one that is told. */
  lemma LastFinishCounts(s: Sub, offers: seq<Update>, granted: nat, first: Terminal, second: Terminal)
    requires Inv(s) && s.live && Finishing(s, offers, granted, first)
    ensures Finishing(Apply(s, Finish(second)), offers, granted, second)
  {
    DrainedFinishes(s.(ending := Some(second)), offers, granted, second);
  }

  /** A cancelled subscription has been sent what it had been sent, for good. */
  lemma CancelStops(s: Sub, ops: seq<Op>)
    ensures ApplyAll(s, [Op.Cancel] + ops).sent == s.sent && !ApplyAll(s, [Op.Cancel] + ops).live
  {
    var t := Apply(s, Op.Cancel);
    assert ([Op.Cancel] + ops)[1..] == ops;
    NothingAfterwards(t, ops);
  }
}
