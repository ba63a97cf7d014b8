/**
 The request-routing protocol (internal/routing/forwarder.go, internal/proxy/proxy.go)
 for one client request: every node may see a different ring, rings may change at any
 time, and every forward may be lost, delivered late or answered with an error after
 it was executed.
 */
module Routing {
  import opened Common
  import opened HashRing

  /** Where one activation of `ServeHTTP` stands. */
  datatype Phase =
    | Arrived
    | Forwarding
    | AwaitOwner(owner: Addr, msg: nat)
    | AwaitFallback(msg: nat)
    | Local
    | Done(executed: bool)

  /** One activation; `via` is the forward that caused it, none for the client's own request. */
  datatype Handler = Handler(node: Addr, forwarded: bool, depth: nat, via: Option<nat>, phase: Phase)

  datatype Status = Pending | Lost | Delivered(handler: nat)

  /** A forward; `marked` is the X-Loraplex-Forwarded header. */
  datatype Msg = Msg(to: Addr, marked: bool, depth: nat, status: Status)

  /** `executions` lists the activations that handled the request themselves. */
  datatype State = State(rings: map<Addr, seq<VNode>>, handlers: seq<Handler>, sent: seq<Msg>, executions: seq<nat>)

  datatype Step =
    | RingChange(node: Addr, ring: seq<VNode>)
    | Decide(h: nat, passthrough: bool, overloaded: bool)
    | SendOwner(h: nat)
    | Deliver(m: nat)
    | Lose(m: nat)
    | Succeed(h: nat)
    | Fail(h: nat)
    | Execute(h: nat)

  function RingOf(s: State, node: Addr): seq<VNode> {
    if node in s.rings then s.rings[node] else []
  }

  /** `Forwarder.Decide`: forwarded, unowned, own and overflowing requests stay here. */
  predicate HandleLocally(ring: seq<VNode>, self: Addr, key: Hash, forwarded: bool, overloaded: bool) {
    forwarded || OwnerOf(ring, key).None? || OwnerOf(ring, key).value == self || overloaded
  }

  ghost predicate Enabled(s: State, step: Step) {
    match step
    case RingChange(_, _) => true
    case Decide(h, _, _) => h < |s.handlers| && s.handlers[h].phase.Arrived?
    case SendOwner(h) => h < |s.handlers| && s.handlers[h].phase.Forwarding?
    case Deliver(m) => m < |s.sent| && s.sent[m].status.Pending?
    case Lose(m) => m < |s.sent| && s.sent[m].status.Pending?
    case Succeed(h) => h < |s.handlers| && Answered(s, s.handlers[h].phase)
    case Fail(h) => h < |s.handlers| && (s.handlers[h].phase.AwaitOwner? || s.handlers[h].phase.AwaitFallback?)
    case Execute(h) => h < |s.handlers| && s.handlers[h].phase.Local?
  }

  /** The awaited forward was delivered and its activation is finished. */
  ghost predicate Answered(s: State, p: Phase) {
    && (p.AwaitOwner? || p.AwaitFallback?) && p.msg < |s.sent|
    && s.sent[p.msg].status.Delivered?
    && s.sent[p.msg].status.handler < |s.handlers| && s.handlers[s.sent[p.msg].status.handler].phase.Done?
  }

  function Goto(s: State, h: nat, p: Phase): State
    requires h < |s.handlers|
  {
    s.(handlers := s.handlers[h := s.handlers[h].(phase := p)])
  }

  /** `Forward` always sets the header. */
  function Send(s: State, h: nat, to: Addr): State
    requires h < |s.handlers|
  {
    s.(sent := s.sent + [Msg(to, true, s.handlers[h].depth + 1, Pending)])
  }

  ghost function Next(s: State, step: Step, key: Hash): State
    requires Enabled(s, step)
  {
    match step
    case RingChange(node, ring) => s.(rings := s.rings[node := ring])
    case Decide(h, passthrough, overloaded) =>
      var me := s.handlers[h];
      Goto(s, h, if passthrough || HandleLocally(RingOf(s, me.node), me.node, key, me.forwarded, overloaded) then Local else Forwarding)
    case SendOwner(h) =>
      var owner := OwnerOf(RingOf(s, s.handlers[h].node), key);
      if owner.None? then Goto(s, h, Local)
      else Goto(Send(s, h, owner.value), h, AwaitOwner(owner.value, |s.sent|))
    case Deliver(m) =>
      var msg := s.sent[m];
      s.(handlers := s.handlers + [Handler(msg.to, msg.marked, msg.depth, Some(m), Arrived)],
         sent := s.sent[m := msg.(status := Delivered(|s.handlers|))])
    case Lose(m) => s.(sent := s.sent[m := s.sent[m].(status := Lost)])
    case Succeed(h) => Goto(s, h, Done(false))
    case Fail(h) =>
      var me := s.handlers[h];
      if me.phase.AwaitFallback? then Goto(s, h, Local)
      else
        var other := FallbackOf(RingOf(s, me.node), key, me.phase.owner);
        if other.None? || other.value == me.node then Goto(s, h, Local)
        else Goto(Send(s, h, other.value), h, AwaitFallback(|s.sent|))
    case Execute(h) => Goto(s, h, Done(true)).(executions := s.executions + [h])
  }

  /** A client request reaches `entry`; `marked` is the header the client sent. */
  ghost predicate Init(s: State, entry: Addr, marked: bool) {
    s.handlers == [Handler(entry, marked, 0, None, Arrived)] && s.sent == [] && s.executions == []
  }

  ghost predicate IsRun(ss: seq<State>, steps: seq<Step>, key: Hash) {
    && |ss| == |steps| + 1
    && forall i :: 0 <= i < |steps| ==> Enabled(ss[i], steps[i]) && ss[i + 1] == Next(ss[i], steps[i], key)
  }

  // ---------------------------------------------------------------------
  // Invariant
  // ---------------------------------------------------------------------

  /** How many forwards the entry activation can have sent by now. */
  ghost predicate SentBy(p: Phase, n: nat) {
    match p
    case Arrived => n == 0
    case Forwarding => n == 0
    case AwaitOwner(_, m) => n == 1 && m == 0
    case AwaitFallback(m) => n == 2 && m == 1
    case _ => n <= 2
  }

  /** A forwarded activation never forwards: it is about to decide, to execute, or has executed. */
  ghost predicate LeafPhase(p: Phase) {
    p.Arrived? || p.Local? || p == Done(true)
  }

  ghost predicate Shape(s: State) {
    && |s.handlers| >= 1
    && s.handlers[0].depth == 0
    && SentBy(s.handlers[0].phase, |s.sent|)
    && (forall m :: 0 <= m < |s.sent| ==> s.sent[m].marked && s.sent[m].depth == 1)
    && (forall h :: 0 < h < |s.handlers| ==> s.handlers[h].forwarded && s.handlers[h].depth == 1 && LeafPhase(s.handlers[h].phase))
  }

  /** Activations and delivered forwards correspond one to one. */
  ghost predicate Traced(s: State) {
    && (forall h :: 0 < h < |s.handlers| ==>
         && s.handlers[h].via.Some? && s.handlers[h].via.value < |s.sent|
         && s.sent[s.handlers[h].via.value].status == Delivered(h)
         && s.sent[s.handlers[h].via.value].to == s.handlers[h].node)
    && (forall m :: 0 <= m < |s.sent| && s.sent[m].status.Delivered? ==>
         0 < s.sent[m].status.handler < |s.handlers| && s.handlers[s.sent[m].status.handler].via == Some(m))
  }

  /** Executions are recorded once, by the activation that finished that way. */
  ghost predicate Executed(s: State) {
    && Distinct(s.executions)
    && (forall i :: 0 <= i < |s.executions| ==> s.executions[i] < |s.handlers| && s.handlers[s.executions[i]].phase == Done(true))
    && (forall h :: 0 <= h < |s.handlers| && s.handlers[h].phase == Done(true) ==> h in s.executions)
  }

  /** A client request that was answered was executed somewhere. */
  ghost predicate AnswerBacked(s: State) {
    |s.handlers| >= 1 && s.handlers[0].phase.Done? ==> s.executions != []
  }

  ghost predicate Inv(s: State) {
    Shape(s) && Traced(s) && Executed(s) && AnswerBacked(s)
  }

  lemma {:induction false} InitInv(s: State, entry: Addr, marked: bool)
    requires Init(s, entry, marked)
    ensures Inv(s)
  {
  }

  lemma {:induction false} StepShape(s: State, step: Step, key: Hash)
    requires Shape(s) && Enabled(s, step)
    ensures Shape(Next(s, step, key))
  {
    hide OwnerOf, FallbackOf;
  }

  /** Growing the list of forwards and moving phases on keeps the correspondence. */
  lemma {:induction false} TracedFramed(s: State, t: State)
    requires Traced(s) && |t.handlers| == |s.handlers| && |s.sent| <= |t.sent|
    requires forall h :: 0 <= h < |s.handlers| ==> t.handlers[h].via == s.handlers[h].via && t.handlers[h].node == s.handlers[h].node
    requires forall m :: 0 <= m < |s.sent| ==> t.sent[m].to == s.sent[m].to
    requires forall m :: 0 <= m < |s.sent| ==> t.sent[m].status == s.sent[m].status || (s.sent[m].status.Pending? && t.sent[m].status.Lost?)
    requires forall m :: |s.sent| <= m < |t.sent| ==> t.sent[m].status.Pending?
    ensures Traced(t)
  {
  }

  lemma {:induction false} DeliverTraced(s: State, m: nat, key: Hash)
    requires |s.handlers| >= 1 && Traced(s) && Enabled(s, Deliver(m))
    ensures Traced(Next(s, Deliver(m), key))
  {
    var t := Next(s, Deliver(m), key);
    assert forall h :: 0 <= h < |s.handlers| ==> t.handlers[h] == s.handlers[h];
    assert forall k :: 0 <= k < |s.sent| && k != m ==> t.sent[k] == s.sent[k];
  }

  lemma {:induction false} StepTraced(s: State, step: Step, key: Hash)
    requires |s.handlers| >= 1 && Traced(s) && Enabled(s, step)
    ensures Traced(Next(s, step, key))
  {
    if step.Deliver? {
      DeliverTraced(s, step.m, key);
    } else {
      TracedFramed(s, Next(s, step, key));
    }
  }

  /** Steps that execute nothing neither finish an activation that way nor reopen one. */
  lemma {:induction false} ExecutedFramed(s: State, t: State)
    requires Executed(s) && t.executions == s.executions && |s.handlers| <= |t.handlers|
    requires forall h :: 0 <= h < |s.handlers| ==> (s.handlers[h].phase == Done(true) <==> t.handlers[h].phase == Done(true))
    requires forall h :: |s.handlers| <= h < |t.handlers| ==> t.handlers[h].phase.Arrived?
    ensures Executed(t)
  {
  }

  lemma {:induction false} StepExecuted(s: State, step: Step, key: Hash)
    requires Executed(s) && Enabled(s, step)
    ensures Executed(Next(s, step, key))
  {
    var t := Next(s, step, key);
    if step.Execute? {
      assert step.h !in s.executions;
      assert t.executions[|s.executions|] == step.h;
      hide OwnerOf, FallbackOf, HandleLocally;
    } else {
      hide OwnerOf, FallbackOf, HandleLocally, Executed;
      ExecutedFramed(s, t);
    }
  }

  lemma {:induction false} StepBacked(s: State, step: Step, key: Hash)
    requires Inv(s) && Enabled(s, step)
    ensures AnswerBacked(Next(s, step, key))
  {
    if step.Succeed? {
      var k := s.sent[s.handlers[step.h].phase.msg].status.handler;
      assert k > 0 && s.handlers[k].phase == Done(true);
      assert k in s.executions;
    }
  }

  lemma {:induction false} StepInv(s: State, step: Step, key: Hash)
    requires Inv(s) && Enabled(s, step)
    ensures Inv(Next(s, step, key))
  {
    StepShape(s, step, key);
    StepTraced(s, step, key);
    StepExecuted(s, step, key);
    StepBacked(s, step, key);
  }

  lemma {:induction false} RunInv(ss: seq<State>, steps: seq<Step>, key: Hash, i: nat)
    requires IsRun(ss, steps, key) && Inv(ss[0]) && i < |ss|
    ensures Inv(ss[i])
  {
    if i > 0 {
      RunInv(ss, steps, key, i - 1);
      StepInv(ss[i - 1], steps[i - 1], key);
    }
  }

  // ---------------------------------------------------------------------
  // Bounded forwarding
  // ---------------------------------------------------------------------

  lemma {:induction false} DistinctBelow(s: seq<nat>, n: nat)
    requires Distinct(s) && forall i :: 0 <= i < |s| ==> s[i] < n
    ensures |s| <= n
    decreases n
  {
    if s == [] {
      return;
    }
    assert 0 <= s[0] < n;
    if n - 1 in s {
      var i :| 0 <= i < |s| && s[i] == n - 1;
      DistinctBelow(s[..i] + s[i + 1..], n - 1);
    } else {
      DistinctBelow(s, n - 1);
    }
  }

  /** At most as many activations beside the first as forwards. */
  lemma {:induction false} HandlersBounded(s: State)
    requires Shape(s) && Traced(s)
    ensures |s.handlers| <= |s.sent| + 1
  {
    var vias := seq(|s.handlers| - 1, i requires 0 <= i < |s.handlers| - 1 => s.handlers[i + 1].via.value);
    forall i, j | 0 <= i < j < |vias| ensures vias[i] != vias[j] {
      assert s.sent[vias[i]].status == Delivered(i + 1) && s.sent[vias[j]].status == Delivered(j + 1);
    }
    DistinctBelow(vias, |s.sent|);
  }

  /**
   Bounded forwarding: under arbitrarily disagreeing and changing rings and arbitrary
   network failures, one client request causes at most two forwards, never more than
   one hop deep, and at most three executions, each activation executing at most once;
   and a request that was answered was executed.
   */
  lemma {:induction false} BoundedForwarding(ss: seq<State>, steps: seq<Step>, key: Hash, entry: Addr, marked: bool, i: nat)
    requires IsRun(ss, steps, key) && Init(ss[0], entry, marked) && i < |ss|
    ensures |ss[i].sent| <= 2 && (forall m :: 0 <= m < |ss[i].sent| ==> ss[i].sent[m].depth == 1)
    ensures |ss[i].handlers| <= 3 && (forall h :: 0 <= h < |ss[i].handlers| ==> ss[i].handlers[h].depth <= 1)
    ensures |ss[i].executions| <= 3 && Distinct(ss[i].executions)
    ensures ss[i].handlers != [] && (ss[i].handlers[0].phase.Done? ==> ss[i].executions != [])
  {
    InitInv(ss[0], entry, marked);
    RunInv(ss, steps, key, i);
    HandlersBounded(ss[i]);
    DistinctBelow(ss[i].executions, |ss[i].handlers|);
  }

  // ---------------------------------------------------------------------
  // Termination
  // ---------------------------------------------------------------------

  ghost function HandlerWeight(h: Handler): nat {
    match h.phase
    case Arrived => if h.forwarded then 2 else 11
    case Forwarding => 10
    case AwaitOwner(_, _) => 6
    case AwaitFallback(_) => 2
    case Local => 1
    case Done(_) => 0
  }

  ghost function MsgWeight(m: Msg): nat {
    if m.status.Pending? then 3 else 0
  }

  ghost function HandlersWeight(hs: seq<Handler>): nat {
    if hs == [] then 0 else HandlersWeight(hs[..|hs| - 1]) + HandlerWeight(hs[|hs| - 1])
  }

  ghost function MsgsWeight(ms: seq<Msg>): nat {
    if ms == [] then 0 else MsgsWeight(ms[..|ms| - 1]) + MsgWeight(ms[|ms| - 1])
  }

  ghost function Weight(s: State): nat {
    HandlersWeight(s.handlers) + MsgsWeight(s.sent)
  }

  lemma {:induction false} HandlersUpdate(hs: seq<Handler>, i: nat, h: Handler)
    requires i < |hs|
    ensures HandlersWeight(hs[i := h]) == HandlersWeight(hs) - HandlerWeight(hs[i]) + HandlerWeight(h)
  {
    var front := hs[..|hs| - 1];
    if i == |hs| - 1 {
      assert hs[i := h][..|hs| - 1] == front;
    } else {
      assert hs[i := h][..|hs| - 1] == front[i := h];
      HandlersUpdate(front, i, h);
    }
  }

  lemma {:induction false} MsgsUpdate(ms: seq<Msg>, i: nat, m: Msg)
    requires i < |ms|
    ensures MsgsWeight(ms[i := m]) == MsgsWeight(ms) - MsgWeight(ms[i]) + MsgWeight(m)
  {
    var front := ms[..|ms| - 1];
    if i == |ms| - 1 {
      assert ms[i := m][..|ms| - 1] == front;
    } else {
      assert ms[i := m][..|ms| - 1] == front[i := m];
      MsgsUpdate(front, i, m);
    }
  }

  lemma {:induction false} HandlersAppend(hs: seq<Handler>, h: Handler)
    ensures HandlersWeight(hs + [h]) == HandlersWeight(hs) + HandlerWeight(h)
  {
    assert (hs + [h])[..|hs|] == hs;
  }

  lemma {:induction false} MsgsAppend(ms: seq<Msg>, m: Msg)
    ensures MsgsWeight(ms + [m]) == MsgsWeight(ms) + MsgWeight(m)
  {
    assert (ms + [m])[..|ms|] == ms;
  }

  lemma {:induction false} GotoWeight(s: State, h: nat, p: Phase)
    requires h < |s.handlers|
    ensures Weight(Goto(s, h, p)) == Weight(s) - HandlerWeight(s.handlers[h]) + HandlerWeight(s.handlers[h].(phase := p))
  {
    HandlersUpdate(s.handlers, h, s.handlers[h].(phase := p));
  }

  lemma {:induction false} SendWeight(s: State, h: nat, to: Addr)
    requires h < |s.handlers|
    ensures Weight(Send(s, h, to)) == Weight(s) + 3
  {
    MsgsAppend(s.sent, Msg(to, true, s.handlers[h].depth + 1, Pending));
  }

  lemma {:induction false} NetworkWeight(s: State, step: Step, key: Hash)
    requires Shape(s) && Enabled(s, step) && (step.Deliver? || step.Lose?)
    ensures Weight(Next(s, step, key)) < Weight(s)
  {
    var t := Next(s, step, key);
    MsgsUpdate(s.sent, step.m, t.sent[step.m]);
    if step.Deliver? {
      HandlersAppend(s.handlers, t.handlers[|s.handlers|]);
    }
  }

  lemma {:induction false} SendingWeight(s: State, step: Step, key: Hash)
    requires Enabled(s, step) && (step.SendOwner? || step.Fail?)
    ensures Weight(Next(s, step, key)) < Weight(s)
  {
    hide OwnerOf, FallbackOf, HandlersWeight, MsgsWeight;
    var t, h := Next(s, step, key), step.h;
    if |t.sent| > |s.sent| {
      var to := t.sent[|s.sent|].to;
      SendWeight(s, h, to);
      GotoWeight(Send(s, h, to), h, t.handlers[h].phase);
      assert t == Goto(Send(s, h, to), h, t.handlers[h].phase);
    } else {
      GotoWeight(s, h, Local);
      assert t == Goto(s, h, Local);
    }
  }

  lemma {:induction false} MovingWeight(s: State, step: Step, key: Hash)
    requires Enabled(s, step) && (step.Decide? || step.Succeed? || step.Execute?)
    ensures Weight(Next(s, step, key)) < Weight(s)
  {
    var t, h := Next(s, step, key), step.h;
    GotoWeight(s, h, t.handlers[h].phase);
    assert Weight(t) == Weight(Goto(s, h, t.handlers[h].phase));
  }

  /** Every protocol step brings the request closer to its end. */
  lemma {:induction false} StepWeight(s: State, step: Step, key: Hash)
    requires Shape(s) && Enabled(s, step)
    ensures if step.RingChange? then Weight(Next(s, step, key)) == Weight(s) else Weight(Next(s, step, key)) < Weight(s)
  {
    match step
    case RingChange(_, _) =>
    case Deliver(_) => NetworkWeight(s, step, key);
    case Lose(_) => NetworkWeight(s, step, key);
    case SendOwner(_) => SendingWeight(s, step, key);
    case Fail(_) => SendingWeight(s, step, key);
    case _ => MovingWeight(s, step, key);
  }

  ghost function ProtocolSteps(steps: seq<Step>): nat {
    if steps == [] then 0 else ProtocolSteps(steps[..|steps| - 1]) + (if steps[|steps| - 1].RingChange? then 0 else 1)
  }

  lemma {:induction false} RunWeight(ss: seq<State>, steps: seq<Step>, key: Hash, i: nat)
    requires IsRun(ss, steps, key) && Inv(ss[0]) && i < |ss|
    ensures ProtocolSteps(steps[..i]) + Weight(ss[i]) <= Weight(ss[0])
  {
    if i > 0 {
      hide Next, Enabled, Traced, Executed, AnswerBacked, Shape, Weight;
      RunWeight(ss, steps, key, i - 1);
      RunInv(ss, steps, key, i - 1);
      StepWeight(ss[i - 1], steps[i - 1], key);
      assert steps[..i][..i - 1] == steps[..i - 1];
    } else {
      assert steps[..0] == [];
    }
  }

  /** Termination: a client request takes at most eleven protocol steps, however often rings change meanwhile. */
  lemma {:induction false} RequestTerminates(ss: seq<State>, steps: seq<Step>, key: Hash, entry: Addr, marked: bool)
    requires IsRun(ss, steps, key) && Init(ss[0], entry, marked)
    ensures ProtocolSteps(steps) <= 11
  {
    InitInv(ss[0], entry, marked);
    RunWeight(ss, steps, key, |steps|);
    assert steps[..|steps|] == steps;
    assert ss[0].handlers[..0] == [];
    assert HandlersWeight(ss[0].handlers) == HandlersWeight([]) + HandlerWeight(ss[0].handlers[0]);
  }

  /** No deadlock: until the client's request is finished, its activation can take a step. */
  lemma {:induction false} EntryProgresses(s: State) returns (step: Step)
    requires Inv(s) && !s.handlers[0].phase.Done?
    ensures Enabled(s, step) && !step.RingChange?
  {
    match s.handlers[0].phase
    case Arrived => step := Decide(0, false, false);
    case Forwarding => step := SendOwner(0);
    case AwaitOwner(_, _) => step := Fail(0);
    case AwaitFallback(_) => step := Fail(0);
    case Local => step := Execute(0);
  }

  // ---------------------------------------------------------------------
  // Distinct nodes
  // ---------------------------------------------------------------------

  lemma {:induction false} FallbackDiffers(ring: seq<VNode>, key: Hash, skip: Addr)
    ensures FallbackOf(ring, key, skip).Some? ==> FallbackOf(ring, key, skip).value != skip
  {
    var k := WalkResult(ring, Search(ring, key), 0, skip);
  }

  /** The second forward avoids the first one's target and the entry itself, whatever the rings do. */
  ghost predicate Targeted(s: State) {
    && |s.handlers| >= 1
    && (s.handlers[0].phase.AwaitOwner? ==> |s.sent| == 1 && s.sent[0].to == s.handlers[0].phase.owner)
    && (|s.sent| >= 2 ==> s.sent[1].to != s.sent[0].to && s.sent[1].to != s.handlers[0].node)
  }

  lemma {:induction false} FailTargeted(s: State, h: nat, key: Hash)
    requires Shape(s) && Targeted(s) && Enabled(s, Fail(h))
    ensures Targeted(Next(s, Fail(h), key))
  {
    if h == 0 && s.handlers[0].phase.AwaitOwner? {
      FallbackDiffers(RingOf(s, s.handlers[0].node), key, s.handlers[0].phase.owner);
    }
    hide OwnerOf, FallbackOf;
  }

  lemma {:induction false} StepTargeted(s: State, step: Step, key: Hash)
    requires Shape(s) && Targeted(s) && Enabled(s, step)
    ensures Targeted(Next(s, step, key)) && Next(s, step, key).handlers[0].node == s.handlers[0].node
  {
    if step.Fail? {
      FailTargeted(s, step.h, key);
    }
    hide OwnerOf, FallbackOf, HandleLocally;
  }

  lemma {:induction false} RunTargeted(ss: seq<State>, steps: seq<Step>, key: Hash, entry: Addr, marked: bool, i: nat)
    requires IsRun(ss, steps, key) && Init(ss[0], entry, marked) && i < |ss|
    ensures Inv(ss[i]) && Targeted(ss[i]) && ss[i].handlers[0].node == entry
  {
    InitInv(ss[0], entry, marked);
    RunInv(ss, steps, key, i);
    if i > 0 {
      RunTargeted(ss, steps, key, entry, marked, i - 1);
      hide Next, Enabled, Traced, Executed, AnswerBacked, Targeted;
      StepTargeted(ss[i - 1], steps[i - 1], key);
    }
  }

  /** The entry's first forward went to the entry itself and arrived. */
  ghost predicate CameBack(s: State) {
    |s.handlers| >= 1 && |s.sent| >= 1 && s.sent[0].to == s.handlers[0].node && s.sent[0].status.Delivered?
  }

  /** Two forwarded activations are on different nodes. */
  lemma {:induction false} ForwardedApart(s: State, x: nat, y: nat)
    requires Inv(s) && Targeted(s) && 0 < x < y < |s.handlers|
    ensures s.handlers[x].node != s.handlers[y].node
  {
    var p, q := s.handlers[x].via.value, s.handlers[y].via.value;
    assert s.sent[p].status == Delivered(x) && s.sent[q].status == Delivered(y);
    assert p != q && p < 2 && q < 2;
  }

  lemma {:induction false} SameNodeCameBack(s: State, x: nat, y: nat)
    requires Inv(s) && Targeted(s) && x < y < |s.handlers| && s.handlers[x].node == s.handlers[y].node
    ensures CameBack(s) && x == 0 && s.sent[0].status == Delivered(y)
  {
    var q := s.handlers[y].via.value;
    assert s.sent[q].status == Delivered(y) && s.sent[q].to == s.handlers[y].node && q < 2;
    if x > 0 {
      ForwardedApart(s, x, y);
    }
  }

  lemma {:induction false} CameBackSameNode(s: State) returns (y: nat)
    requires Inv(s) && CameBack(s)
    ensures 0 < y < |s.handlers| && s.sent[0].status == Delivered(y) && s.handlers[y].node == s.handlers[0].node
  {
    y := s.sent[0].status.handler;
    assert s.handlers[y].via == Some(0);
  }

  /**
   Distinct nodes, exactly. Under arbitrary ring changes and failures the request visits
   some node twice if and only if the entry forwarded it to itself first; it is executed
   twice on one node if and only if both activations of the entry then executed it.
   */
  lemma {:induction false} RepeatsIffCameBack(ss: seq<State>, steps: seq<Step>, key: Hash, entry: Addr, marked: bool, i: nat)
    requires IsRun(ss, steps, key) && Init(ss[0], entry, marked) && i < |ss|
    ensures var s := ss[i];
            && ((exists x, y :: 0 <= x < y < |s.handlers| && s.handlers[x].node == s.handlers[y].node) <==> CameBack(s))
            && (ExecutesTwice(s) <==> CameBack(s) && 0 in s.executions && s.sent[0].status.handler in s.executions)
  {
    RunTargeted(ss, steps, key, entry, marked, i);
    RepeatsHere(ss[i]);
    ExecutesTwiceHere(ss[i]);
  }

  /** One node executes the request twice. */
  ghost predicate ExecutesTwice(s: State) {
    exists a, b :: 0 <= a < b < |s.executions| && SameNode(s, s.executions[a], s.executions[b])
  }

  ghost predicate SameNode(s: State, x: nat, y: nat) {
    x < |s.handlers| && y < |s.handlers| && s.handlers[x].node == s.handlers[y].node
  }

  lemma {:induction false} RepeatsHere(s: State)
    requires Inv(s) && Targeted(s)
    ensures (exists x, y :: 0 <= x < y < |s.handlers| && s.handlers[x].node == s.handlers[y].node) <==> CameBack(s)
  {
    if x, y :| 0 <= x < y < |s.handlers| && s.handlers[x].node == s.handlers[y].node {
      SameNodeCameBack(s, x, y);
    }
    if CameBack(s) {
      var y := CameBackSameNode(s);
      assert s.handlers[0].node == s.handlers[y].node;
    }
  }

  lemma {:induction false} ExecutesTwiceHere(s: State)
    requires Inv(s) && Targeted(s)
    ensures ExecutesTwice(s) <==> CameBack(s) && 0 in s.executions && s.sent[0].status.handler in s.executions
  {
    if ExecutesTwice(s) {
      var a, b :| 0 <= a < b < |s.executions| && SameNode(s, s.executions[a], s.executions[b]);
      var x, y := s.executions[a], s.executions[b];
      assert x != y;
      SameNodeCameBack(s, if x < y then x else y, if x < y then y else x);
    }
    if CameBack(s) && 0 in s.executions && s.sent[0].status.handler in s.executions {
      var y := CameBackSameNode(s);
      var a :| 0 <= a < |s.executions| && s.executions[a] == 0;
      var b :| 0 <= b < |s.executions| && s.executions[b] == y;
      assert SameNode(s, s.executions[a], s.executions[b]) && SameNode(s, s.executions[b], s.executions[a]);
    }
  }

  /** The entry's second lookup, the one that addresses the forward, names the entry itself. */
  ghost predicate SendsToSelf(s: State, step: Step, key: Hash, entry: Addr) {
    step == SendOwner(0) && OwnerOf(RingOf(s, entry), key) == Some(entry)
  }

  lemma {:induction false} FirstForward(s: State, step: Step, key: Hash)
    requires Shape(s) && Enabled(s, step)
    ensures var t, node := Next(s, step, key), s.handlers[0].node;
            |t.sent| >= 1 && t.sent[0].to == node <==> (|s.sent| >= 1 && s.sent[0].to == node) || SendsToSelf(s, step, key, node)
  {
    hide OwnerOf, FallbackOf, HandleLocally;
  }

  ghost predicate SentToSelf(ss: seq<State>, steps: seq<Step>, key: Hash, entry: Addr, i: nat)
    requires i <= |steps| <= |ss|
  {
    exists k :: 0 <= k < i && SendsToSelf(ss[k], steps[k], key, entry)
  }

  lemma {:induction false} SentToSelfGrows(ss: seq<State>, steps: seq<Step>, key: Hash, entry: Addr, i: nat)
    requires 0 < i <= |steps| <= |ss|
    ensures SentToSelf(ss, steps, key, entry, i) <==>
              SentToSelf(ss, steps, key, entry, i - 1) || SendsToSelf(ss[i - 1], steps[i - 1], key, entry)
  {
    hide SendsToSelf;
  }

  lemma {:induction false} ForwardsToSelfSoFar(ss: seq<State>, steps: seq<Step>, key: Hash, entry: Addr, marked: bool, i: nat)
    requires IsRun(ss, steps, key) && Init(ss[0], entry, marked) && i < |ss|
    ensures |ss[i].sent| >= 1 && ss[i].sent[0].to == entry <==> SentToSelf(ss, steps, key, entry, i)
  {
    if i > 0 {
      ForwardsToSelfSoFar(ss, steps, key, entry, marked, i - 1);
      RunTargeted(ss, steps, key, entry, marked, i - 1);
      SentToSelfGrows(ss, steps, key, entry, i);
      hide Next, Enabled, Traced, Executed, AnswerBacked, Targeted, SendsToSelf, SentBy, SentToSelf;
      FirstForward(ss[i - 1], steps[i - 1], key);
    }
  }

  /** The forward goes to the entry itself if and only if the second lookup found the entry to own the key by then. */
  lemma {:induction false} ForwardsToSelfIff(ss: seq<State>, steps: seq<Step>, key: Hash, entry: Addr, marked: bool, i: nat)
    requires IsRun(ss, steps, key) && Init(ss[0], entry, marked) && i < |ss|
    ensures |ss[i].sent| >= 1 && ss[i].sent[0].to == entry <==> exists k :: 0 <= k < i && SendsToSelf(ss[k], steps[k], key, entry)
  {
    ForwardsToSelfSoFar(ss, steps, key, entry, marked, i);
    hide SendsToSelf, Init, IsRun;
  }

  /** With the entry's ring fixed, a request that is being forwarded has a remote owner. */
  ghost predicate DecidedOn(s: State, ring: seq<VNode>, key: Hash) {
    && |s.handlers| >= 1 && RingOf(s, s.handlers[0].node) == ring
    && (s.handlers[0].phase.Forwarding? ==> OwnerOf(ring, key) != Some(s.handlers[0].node))
  }

  lemma {:induction false} StepDecided(s: State, step: Step, key: Hash, ring: seq<VNode>)
    requires Shape(s) && DecidedOn(s, ring, key) && Enabled(s, step) && (step.RingChange? ==> step.node != s.handlers[0].node)
    ensures DecidedOn(Next(s, step, key), ring, key)
  {
    hide OwnerOf, FallbackOf;
  }

  lemma {:induction false} RunDecided(ss: seq<State>, steps: seq<Step>, key: Hash, entry: Addr, marked: bool, i: nat)
    requires IsRun(ss, steps, key) && Init(ss[0], entry, marked) && i < |ss|
    requires forall k :: 0 <= k < i && steps[k].RingChange? ==> steps[k].node != entry
    ensures DecidedOn(ss[i], RingOf(ss[0], entry), key) && ss[i].handlers[0].node == entry
  {
    RunTargeted(ss, steps, key, entry, marked, i);
    if i > 0 {
      RunDecided(ss, steps, key, entry, marked, i - 1);
      RunTargeted(ss, steps, key, entry, marked, i - 1);
      hide Next, Enabled, Traced, Executed, AnswerBacked, Targeted, DecidedOn;
      StepDecided(ss[i - 1], steps[i - 1], key, RingOf(ss[0], entry));
    }
  }

  /** So if the entry node's ring stays fixed during the request, no node executes it twice. */
  lemma {:induction false} ExecutionsOnDistinctNodes(ss: seq<State>, steps: seq<Step>, key: Hash, entry: Addr, marked: bool, i: nat)
    requires IsRun(ss, steps, key) && Init(ss[0], entry, marked) && i < |ss|
    requires forall k :: 0 <= k < i && steps[k].RingChange? ==> steps[k].node != entry
    ensures !ExecutesTwice(ss[i]) && !CameBack(ss[i])
  {
    RepeatsIffCameBack(ss, steps, key, entry, marked, i);
    RunTargeted(ss, steps, key, entry, marked, i);
    if CameBack(ss[i]) {
      ForwardsToSelfIff(ss, steps, key, entry, marked, i);
      var k :| 0 <= k < i && SendsToSelf(ss[k], steps[k], key, entry);
      RunDecided(ss, steps, key, entry, marked, k);
    }
  }

  // ---------------------------------------------------------------------
  // What must be forwarded
  // ---------------------------------------------------------------------

  /**
   A request is sent on exactly when it is a client's, does not pass through, its owner is
   not overloaded, and on this node's members another peer is nearest.
   */
  lemma {:induction false} DecidesToForwardIff(s: State, h: nat, passthrough: bool, overloaded: bool, key: Hash, hs: Hashing, n: int, members: set<Addr>)
    requires Enabled(s, Decide(h, passthrough, overloaded)) && NoTies(hs, n, members)
    requires Built(RingOf(s, s.handlers[h].node), hs, n, members)
    ensures var me, t := s.handlers[h], Next(s, Decide(h, passthrough, overloaded), key);
            && (t.handlers[h].phase.Forwarding? <==>
                  !passthrough && !me.forwarded && !overloaded && Pool(hs, n, members) != {} && !Owns(hs, n, members, key, me.node))
            && (t.handlers[h].phase.Forwarding? || t.handlers[h].phase.Local?)
  {
    var me := s.handlers[h];
    OwnerIsNearest(RingOf(s, me.node), hs, n, members, key);
    OwnerRefinesNearest(RingOf(s, me.node), hs, n, members, key, me.node);
    hide Built, Owns, NoTies, Pool, OwnerOf;
  }

  /**
   A node whose forward failed tries again exactly when, without the peer it tried, another
   remote peer is nearest on its members by then, and it tries that one; otherwise it
   handles the request itself.
   */
  lemma {:induction false} FailureForwardsIff(s: State, h: nat, key: Hash, hs: Hashing, n: int, members: set<Addr>)
    requires Enabled(s, Fail(h)) && s.handlers[h].phase.AwaitOwner? && NoTies(hs, n, members)
    requires Built(RingOf(s, s.handlers[h].node), hs, n, members)
    ensures var me, t, others := s.handlers[h], Next(s, Fail(h), key), members - {s.handlers[h].phase.owner};
            && (|t.sent| > |s.sent| <==> Pool(hs, n, others) != {} && !Owns(hs, n, others, key, me.node))
            && (|t.sent| > |s.sent| ==> Owns(hs, n, others, key, t.sent[|s.sent|].to) && t.handlers[h].phase == AwaitFallback(|s.sent|))
            && (|t.sent| == |s.sent| ==> t.handlers[h].phase.Local?)
  {
    var me, skip := s.handlers[h], s.handlers[h].phase.owner;
    var others, other := members - {skip}, FallbackOf(RingOf(s, me.node), key, skip);
    FallbackIsNearestOther(RingOf(s, me.node), hs, n, members, key, skip);
    PoolMonotone(hs, n, others, members);
    if other.Some? && Owns(hs, n, others, key, me.node) {
      OwnerIsUnique(hs, n, others, key, other.value, me.node);
    }
    hide Built, Owns, NoTies, Pool, FallbackOf, OwnerOf;
  }

  /** One virtual node is the whole ring. */
  function Alone(peer: Addr): seq<VNode> {
    [VNode(0, peer)]
  }

  /** The steps of a request whose entry node's ring changes between its two lookups. */
  function ChangedInBetween(entry: Addr): seq<Step> {
    [Decide(0, false, false), RingChange(entry, Alone(entry)), SendOwner(0), Deliver(0), Decide(1, false, false), Execute(1), Fail(0), Execute(0)]
  }

  /**
   It does happen: when the entry's ring changes between the decision
   and the forward, the entry forwards to itself and, if it gives up waiting, executes
   the request twice.
   */
  lemma {:induction false} ChangingRingExecutesTwice(entry: Addr, owner: Addr, key: Hash) returns (ss: seq<State>, steps: seq<Step>)
    requires entry != owner
    ensures IsRun(ss, steps, key) && Init(ss[0], entry, false)
    ensures steps == ChangedInBetween(entry)
    ensures var t := ss[|steps|];
            && t.executions == [1, 0] && |t.handlers| == 2 && t.handlers[1].node == entry && t.handlers[0].node == entry
            && t.sent == [Msg(entry, true, 1, Delivered(1))]
  {
    steps := ChangedInBetween(entry);
    assert OwnerOf(Alone(owner), key) == Some(owner) && OwnerOf(Alone(entry), key) == Some(entry);
    AloneHasNoFallback(entry, key);
    var before, after := map[entry := Alone(owner)], map[entry := Alone(entry)];
    var sent, delivered := [Msg(entry, true, 1, Pending)], [Msg(entry, true, 1, Delivered(1))];
    ss := [State(before, [Entry(entry, Arrived)], [], []),
           State(before, [Entry(entry, Forwarding)], [], []),
           State(after, [Entry(entry, Forwarding)], [], []),
           State(after, [Entry(entry, AwaitOwner(entry, 0))], sent, []),
           State(after, [Entry(entry, AwaitOwner(entry, 0)), Again(entry, Arrived)], delivered, []),
           State(after, [Entry(entry, AwaitOwner(entry, 0)), Again(entry, Local)], delivered, []),
           State(after, [Entry(entry, AwaitOwner(entry, 0)), Again(entry, Done(true))], delivered, [1]),
           State(after, [Entry(entry, Local), Again(entry, Done(true))], delivered, [1]),
           State(after, [Entry(entry, Done(true)), Again(entry, Done(true))], delivered, [1, 0])];
    hide OwnerOf, FallbackOf, Alone;
    FirstHalf(ss, steps, key);
    SecondHalf(ss, steps, key);
    hide Enabled, Next;
    assert IsRun(ss, steps, key);
  }

  /** The entry's activation, and the one its own forward causes. */
  function Entry(node: Addr, p: Phase): Handler {
    Handler(node, false, 0, None, p)
  }

  function Again(node: Addr, p: Phase): Handler {
    Handler(node, true, 1, Some(0), p)
  }

  lemma {:induction false} FirstHalf(ss: seq<State>, steps: seq<Step>, key: Hash)
    requires |ss| == 9 && |steps| == 8 && ss[0].handlers != []
    requires var entry, owner := ss[0].handlers[0].node, OwnerOf(RingOf(ss[0], ss[0].handlers[0].node), key);
             && owner.Some? && owner.value != entry && OwnerOf(Alone(entry), key) == Some(entry) && steps == ChangedInBetween(entry)
             && ss[0] == State(ss[0].rings, [Entry(entry, Arrived)], [], [])
             && ss[1] == State(ss[0].rings, [Entry(entry, Forwarding)], [], [])
             && ss[2] == State(ss[0].rings[entry := Alone(entry)], [Entry(entry, Forwarding)], [], [])
             && ss[3] == State(ss[2].rings, [Entry(entry, AwaitOwner(entry, 0))], [Msg(entry, true, 1, Pending)], [])
             && ss[4] == State(ss[2].rings, [Entry(entry, AwaitOwner(entry, 0)), Again(entry, Arrived)], [Msg(entry, true, 1, Delivered(1))], [])
    ensures forall i :: 0 <= i < 4 ==> Enabled(ss[i], steps[i]) && ss[i + 1] == Next(ss[i], steps[i], key)
  {
    hide OwnerOf, FallbackOf, Alone;
    assert Next(ss[0], steps[0], key) == ss[1];
    assert Next(ss[1], steps[1], key) == ss[2];
    assert Next(ss[2], steps[2], key) == ss[3];
    assert Next(ss[3], steps[3], key) == ss[4];
  }

  lemma {:induction false} SecondHalf(ss: seq<State>, steps: seq<Step>, key: Hash)
    requires |ss| == 9 && |steps| == 8 && ss[4].handlers != []
    requires var entry, rings, sent := ss[4].handlers[0].node, ss[4].rings, [Msg(ss[4].handlers[0].node, true, 1, Delivered(1))];
             && FallbackOf(RingOf(ss[4], entry), key, entry).None? && steps == ChangedInBetween(entry)
             && ss[4] == State(rings, [Entry(entry, AwaitOwner(entry, 0)), Again(entry, Arrived)], sent, [])
             && ss[5] == State(rings, [Entry(entry, AwaitOwner(entry, 0)), Again(entry, Local)], sent, [])
             && ss[6] == State(rings, [Entry(entry, AwaitOwner(entry, 0)), Again(entry, Done(true))], sent, [1])
             && ss[7] == State(rings, [Entry(entry, Local), Again(entry, Done(true))], sent, [1])
             && ss[8] == State(rings, [Entry(entry, Done(true)), Again(entry, Done(true))], sent, [1, 0])
    ensures forall i :: 4 <= i < 8 ==> Enabled(ss[i], steps[i]) && ss[i + 1] == Next(ss[i], steps[i], key)
  {
    hide OwnerOf, FallbackOf, Alone;
    assert Next(ss[4], steps[4], key) == ss[5];
    assert Next(ss[5], steps[5], key) == ss[6];
    assert Next(ss[6], steps[6], key) == ss[7];
    assert Next(ss[7], steps[7], key) == ss[8];
  }

  lemma {:induction false} AloneHasNoFallback(peer: Addr, key: Hash)
    ensures FallbackOf(Alone(peer), key, peer).None?
  {
    var k := WalkResult(Alone(peer), Search(Alone(peer), key), 0, peer);
  }
}
