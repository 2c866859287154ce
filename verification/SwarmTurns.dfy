/** The rounds of the swarm's poll loop, over whatever listeners, pool and behaviour do. */
module SwarmTurns {
  import opened SwarmReports
  import opened SwarmDelivery

  datatype State = State(net: Net, post: Post)

  datatype ListenerPoll = ListenersPending | IncomingAdmitted | IncomingRefused | ListenerReport

  datatype PoolPoll = PoolPending | PoolReady(event: PoolEvent)

  datatype Target = ToOne(id: ConnectionId) | ToAny

  datatype Action =
    | NoAction
    | GenerateEvent
    | Dial(admitted: bool, named: bool)
    | Notify(peer: PeerId, target: Target, event: string)
    | OtherAction

  /** What one round finds: listeners, pool, how connections react to the pending event, what
      the behaviour wants, in which order the pool lists the peer's connections, and how
      they react to a new event. */
  datatype Turn = Turn(
    listeners: ListenerPoll,
    pool: PoolPoll,
    react: Readiness,
    action: Action,
    order: seq<ConnectionId>,
    reactNew: Readiness)

  /** The poll returns an event, returns without one, or goes round again. */
  datatype Flow = Ready | NotYet | Again

  predicate Quiet(t: Turn) {
    t.listeners.ListenersPending? && t.pool.PoolPending?
  }

  predicate ReturnsEvent(e: PoolEvent) {
    !e.ConnectionEvent? && !e.EndpointChanged?
  }

  ghost predicate Lists(order: seq<ConnectionId>, ids: set<ConnectionId>) {
    && (forall c :: c in order <==> c in ids)
    && (forall i, j | 0 <= i < j < |order| :: order[i] != order[j])
  }

  function AfterPool(n: Net, p: PoolPoll): Net
    requires p.PoolReady? ==> PoolCan(n, p.event)
  {
    if p.PoolReady? then OnPool(n, p.event) else n
  }

  ghost predicate Enabled(n: Net, t: Turn) {
    && (t.pool.PoolReady? ==> PoolCan(n, t.pool.event))
    && (t.action.Notify? && t.action.target.ToAny? ==>
          Lists(t.order, OfPeer(AfterPool(n, t.pool).established, t.action.peer)))
  }

  ghost predicate Inv(s: State) {
    SwarmReports.Inv(s.net) && SwarmDelivery.Inv(s.post)
  }

  function HandlerOf(t: Turn): NotifyHandler
    requires t.action.Notify?
  {
    match t.action.target
    case ToOne(id) => One(id)
    case ToAny => Any(t.order)
  }

  /** The behaviour is polled only once the slot is empty. */
  function Act(s: State, t: Turn): (State, Flow)
    requires s.post.slot.Empty?
  {
    match t.action
    case NoAction => (s, if Quiet(t) then NotYet else Again)
    case GenerateEvent => (s, Ready)
    case Dial(admitted, named) =>
      (if admitted then s.(net := SwarmReports.Next(s.net, Connect)) else s, if admitted && named then Ready else Again)
    case Notify(peer, _, event) =>
      var post := Emit(s.post, peer, HandlerOf(t), event, s.net.established, t.reactNew);
      (s.(post := post), if post.slot.Pending? && Quiet(t) then NotYet else Again)
    case OtherAction => (s, Again)
  }

  function TryDeliver(s: State, react: Readiness): State
    requires Inv(s)
  {
    if s.post.slot.Pending? then s.(post := Deliver(s.post, s.net.established, react)) else s
  }

  function Round(s: State, t: Turn): (State, Flow)
    requires Inv(s) && Enabled(s.net, t)
  {
    if t.listeners.IncomingAdmitted? then (s.(net := SwarmReports.Next(s.net, Connect)), Ready)
    else if t.listeners.ListenerReport? then (s, Ready)
    else
      PoolKeepsInv(s, t.pool);
      var m := s.(net := AfterPool(s.net, t.pool));
      if t.pool.PoolReady? && ReturnsEvent(t.pool.event) then (m, Ready)
      else
        var d := TryDeliver(m, t.react);
        if d.post.slot.Pending? then (d, if Quiet(t) then NotYet else Again)
        else Act(d, t)
  }

  lemma PoolKeepsInv(s: State, p: PoolPoll)
    requires Inv(s) && (p.PoolReady? ==> PoolCan(s.net, p.event))
    ensures Inv(s.(net := AfterPool(s.net, p)))
  {
    if p.PoolReady? {
      StepKeepsInv(s.net, Pool(p.event));
    }
  }

  lemma ActKeepsInv(s: State, t: Turn)
    requires Inv(s) && s.post.slot.Empty?
    ensures Inv(Act(s, t).0)
  {
    StepKeepsInv(s.net, Connect);
    if t.action.Notify? {
      EmitKeepsInv(s.post, t.action.peer, HandlerOf(t), t.action.event, s.net.established, t.reactNew);
    }
  }

  lemma TryDeliverKeepsInv(s: State, react: Readiness)
    requires Inv(s)
    ensures Inv(TryDeliver(s, react))
  {
    if s.post.slot.Pending? {
      DeliverKeepsInv(s.post, s.net.established, react);
    }
  }

  lemma RoundKeepsInv(s: State, t: Turn)
    requires Inv(s) && Enabled(s.net, t)
    ensures Inv(Round(s, t).0)
  {
    if t.listeners.IncomingAdmitted? {
      StepKeepsInv(s.net, Connect);
    } else if !t.listeners.ListenerReport? {
      PoolKeepsInv(s, t.pool);
      var m := s.(net := AfterPool(s.net, t.pool));
      if !(t.pool.PoolReady? && ReturnsEvent(t.pool.event)) {
        TryDeliverKeepsInv(m, t.react);
        var d := TryDeliver(m, t.react);
        if d.post.slot.Empty? {
          ActKeepsInv(d, t);
        }
      }
    }
  }

  /** The poll goes to sleep only when listeners and pool are quiet and either an event
      waits for a busy connection or the behaviour has nothing to do; and it goes round
      again only when one of them was not. */
  lemma SleepsOnlyWhenIdle(s: State, t: Turn)
    requires Inv(s) && Enabled(s.net, t)
    ensures var (r, flow) := Round(s, t);
            && (flow.NotYet? ==> Quiet(t) && (r.post.slot.Pending? || t.action.NoAction?))
            && (flow.Again? && r.post.slot.Pending? ==> !Quiet(t))
            && (flow.Again? && Quiet(t) ==> !t.action.NoAction?)
  {
  }

  /** For whom an event is meant: the one connection, or all the peer has at the time. */
  function Captured(conns: map<ConnectionId, Connection>, peer: PeerId, target: Target): set<ConnectionId> {
    match target
    case ToOne(id) => {id}
    case ToAny => OfPeer(conns, peer)
  }

  lemma ActEmits(s: State, t: Turn)
    requires s.post.slot.Empty?
    requires t.action.Notify? && t.action.target.ToAny? ==> Lists(t.order, OfPeer(s.net.established, t.action.peer))
    ensures Act(s, t).0.post.emitted ==
            if !t.action.Notify? then s.post.emitted
            else s.post.emitted
                 + [Emission(t.action.peer, Captured(s.net.established, t.action.peer, t.action.target),
                             t.action.event)]
  {
    if t.action.Notify? {
      assert Candidates(HandlerOf(t)) == Captured(s.net.established, t.action.peer, t.action.target);
    }
  }

  /** While an event waits, no other is emitted: a round emits at most one event, and only
      after the pending one has been accepted or given up. */
  lemma NoEmissionWhilePending(s: State, t: Turn)
    requires Inv(s) && Enabled(s.net, t) && Round(s, t).0.post.emitted != s.post.emitted
    ensures t.action.Notify?
    ensures var conns := AfterPool(s.net, t.pool).established;
            && Round(s, t).0.post.emitted == s.post.emitted
                 + [Emission(t.action.peer, Captured(conns, t.action.peer, t.action.target), t.action.event)]
            && (s.post.slot.Pending? ==> Deliver(s.post, conns, t.react).slot.Empty?)
  {
    if !t.listeners.IncomingAdmitted? && !t.listeners.ListenerReport? {
      PoolKeepsInv(s, t.pool);
      var d := TryDeliver(s.(net := AfterPool(s.net, t.pool)), t.react);
      assert d.post.emitted == s.post.emitted;
      if d.post.slot.Empty? {
        ActEmits(d, t);
      }
    }
  }

  // ------------------------------------------------------------ what a round does

  /** Listeners, or an event of the pool that the user is to hear of, end the round. */
  predicate EndsRound(t: Turn) {
    || t.listeners == IncomingAdmitted || t.listeners == ListenerReport
    || (t.pool.PoolReady?
        && (t.pool.event.PendingFailed? || t.pool.event.ConnectionEstablished? || t.pool.event.ConnectionClosed?))
  }

  /** The event in the slot keeps the behaviour from being polled. */
  ghost predicate Blocked(s: State, t: Turn)
    requires t.pool.PoolReady? ==> PoolCan(s.net, t.pool.event)
  {
    s.post.slot.Pending? && Stuck(Candidates(s.post.slot.handler), AfterPool(s.net, t.pool).established, t.react)
  }

  /** So does a new event, at once. */
  ghost predicate NewlyBlocked(s: State, t: Turn)
    requires t.pool.PoolReady? ==> PoolCan(s.net, t.pool.event)
  {
    && t.action.Notify?
    && var conns := AfterPool(s.net, t.pool).established;
       Stuck(Captured(conns, t.action.peer, t.action.target), conns, t.reactNew)
  }

  /** The state once the pool's event is handled and the pending event was tried. */
  lemma SlotIsTried(s: State, t: Turn)
    requires Inv(s) && Enabled(s.net, t)
    ensures var m := s.(net := AfterPool(s.net, t.pool));
            && Inv(m)
            && var d := TryDeliver(m, t.react);
               && d.net == m.net && d.post.emitted == s.post.emitted && s.post.attempts <= d.post.attempts
               && (d.post.slot.Pending? <==> Blocked(s, t))
               && (s.post.slot.Empty? ==> d == m)
               && (s.post.slot.Pending? ==>
                     && Tried(s.post, d.post, |s.post.emitted| - 1, s.post.slot.event,
                              Candidates(s.post.slot.handler), m.net.established, t.react)
                     && (d.post.slot.Pending? ==>
                           Waits(d.post.slot, s.post.slot.event, Candidates(s.post.slot.handler),
                                 m.net.established, t.react)))
  {
    PoolKeepsInv(s, t.pool);
    if s.post.slot.Pending? {
      DeliveryTries(s.post, AfterPool(s.net, t.pool).established, t.react);
    }
  }

  lemma ActIsTried(s: State, t: Turn)
    requires Inv(s) && s.post.slot.Empty? && t.action.Notify?
    requires t.action.target.ToAny? ==> Lists(t.order, OfPeer(s.net.established, t.action.peer))
    ensures var r, conns := Act(s, t).0.post, s.net.established;
            var captured := Captured(conns, t.action.peer, t.action.target);
            && r.emitted == s.post.emitted + [Emission(t.action.peer, captured, t.action.event)]
            && Tried(s.post, r, |s.post.emitted|, t.action.event, captured, conns, t.reactNew)
            && (r.slot.Pending? <==> Stuck(captured, conns, t.reactNew))
            && (r.slot.Pending? ==> Waits(r.slot, t.action.event, captured, conns, t.reactNew))
  {
    ActEmits(s, t);
    var h := HandlerOf(t);
    var captured := Captured(s.net.established, t.action.peer, t.action.target);
    assert Candidates(h) == captured;
    var q := Post(s.post.emitted + [Emission(t.action.peer, captured, t.action.event)],
                  Pending(t.action.peer, h, t.action.event), s.post.attempts);
    DeliveryTries(q, s.net.established, t.reactNew);
  }

  /** The state in which the round goes on after the slot was looked at. */
  lemma RoundGoesOn(s: State, t: Turn, d: State)
    requires Inv(s) && Enabled(s.net, t) && !EndsRound(t) && Inv(s.(net := AfterPool(s.net, t.pool)))
    requires d == TryDeliver(s.(net := AfterPool(s.net, t.pool)), t.react)
    ensures Inv(d)
    ensures Round(s, t) == if d.post.slot.Pending? then (d, if Quiet(t) then NotYet else Again) else Act(d, t)
  {
    TryDeliverKeepsInv(s.(net := AfterPool(s.net, t.pool)), t.react);
  }

  lemma ActKeepsPost(s: State, t: Turn)
    requires s.post.slot.Empty? && !t.action.Notify?
    ensures Act(s, t).0.post == s.post
  {
  }

  lemma ActAppends(s: State, t: Turn)
    requires Inv(s) && s.post.slot.Empty?
    requires t.action.Notify? && t.action.target.ToAny? ==>
               Lists(t.order, OfPeer(s.net.established, t.action.peer))
    ensures s.post.attempts <= Act(s, t).0.post.attempts
  {
    if t.action.Notify? {
      ActIsTried(s, t);
    } else {
      ActKeepsPost(s, t);
    }
  }

  /** What a round does once the slot was looked at. */
  lemma RoundAppends(s: State, t: Turn) returns (d: State)
    requires Inv(s) && Enabled(s.net, t) && !EndsRound(t)
    ensures Inv(s.(net := AfterPool(s.net, t.pool))) && d == TryDeliver(s.(net := AfterPool(s.net, t.pool)), t.react)
    ensures d.post.attempts <= Round(s, t).0.post.attempts
    ensures d.post.slot.Pending? ==> Round(s, t).0 == d
  {
    PoolKeepsInv(s, t.pool);
    d := TryDeliver(s.(net := AfterPool(s.net, t.pool)), t.react);
    RoundGoesOn(s, t, d);
    if d.post.slot.Empty? {
      ActAppends(d, t);
    }
  }

  lemma SlotThen(s: State, t: Turn, d: State, r: Post, conns: map<ConnectionId, Connection>)
    requires Inv(s) && Enabled(s.net, t) && s.post.slot.Pending? && Inv(s.(net := AfterPool(s.net, t.pool)))
    requires d == TryDeliver(s.(net := AfterPool(s.net, t.pool)), t.react)
    requires d.post.attempts <= r.attempts && (d.post.slot.Pending? ==> r == d.post)
    requires conns == AfterPool(s.net, t.pool).established
    ensures var candidates := Candidates(s.post.slot.handler);
            && Tried(s.post, r, |s.post.emitted| - 1, s.post.slot.event, candidates, conns, t.react)
            && (Stuck(candidates, conns, t.react) ==>
                  Waits(r.slot, s.post.slot.event, candidates, conns, t.react) && r.emitted == s.post.emitted)
  {
    SlotIsTried(s, t);
    TriedAtMost(s.post, d.post, r, |s.post.emitted| - 1, s.post.slot.event,
                Candidates(s.post.slot.handler), conns, t.react);
  }

  /** Unless the round has ended before, the pending event is tried: it is accepted if some
      candidate accepts, has otherwise been tried with every candidate, and stays in the slot
      for exactly those that were busy. */
  lemma PendingIsTried(s: State, t: Turn)
    requires Inv(s) && Enabled(s.net, t) && s.post.slot.Pending? && !EndsRound(t)
    ensures var r, conns, candidates :=
              Round(s, t).0.post, AfterPool(s.net, t.pool).established, Candidates(s.post.slot.handler);
            && Tried(s.post, r, |s.post.emitted| - 1, s.post.slot.event, candidates, conns, t.react)
            && (Stuck(candidates, conns, t.react) ==>
                  Waits(r.slot, s.post.slot.event, candidates, conns, t.react) && r.emitted == s.post.emitted)
  {
    var d := RoundAppends(s, t);
    SlotThen(s, t, d, Round(s, t).0.post, AfterPool(s.net, t.pool).established);
  }

  /** A round emits an event exactly if it has not ended before, nothing blocks the behaviour, and
      the behaviour wants to; and then tries it at once. */
  lemma EmitsIff(s: State, t: Turn)
    requires Inv(s) && Enabled(s.net, t)
    ensures var r, conns := Round(s, t).0.post, AfterPool(s.net, t.pool).established;
            if !EndsRound(t) && !Blocked(s, t) && t.action.Notify? then
              var captured := Captured(conns, t.action.peer, t.action.target);
              && r.emitted == s.post.emitted + [Emission(t.action.peer, captured, t.action.event)]
              && Tried(s.post, r, |s.post.emitted|, t.action.event, captured, conns, t.reactNew)
              && (r.slot.Pending? <==> NewlyBlocked(s, t))
              && (r.slot.Pending? ==> Waits(r.slot, t.action.event, captured, conns, t.reactNew))
            else
              r.emitted == s.post.emitted && (EndsRound(t) ==> r == s.post)
  {
    if !EndsRound(t) {
      SlotIsTried(s, t);
      var m := s.(net := AfterPool(s.net, t.pool));
      var d := TryDeliver(m, t.react);
      RoundGoesOn(s, t, d);
      if d.post.slot.Empty? {
        if t.action.Notify? {
          ActIsTried(d, t);
          TriedSince(s.post, d.post, Round(s, t).0.post, |s.post.emitted|, t.action.event,
                     Captured(m.net.established, t.action.peer, t.action.target), m.net.established, t.reactNew);
        } else {
          ActKeepsPost(d, t);
        }
      }
    }
  }

  lemma ActFlow(s: State, t: Turn)
    requires Inv(s) && s.post.slot.Empty?
    requires t.action.Notify? && t.action.target.ToAny? ==>
               Lists(t.order, OfPeer(s.net.established, t.action.peer))
    ensures var flow, conns := Act(s, t).1, s.net.established;
            var stuck := t.action.Notify?
                         && Stuck(Captured(conns, t.action.peer, t.action.target), conns, t.reactNew);
            && (flow.Ready? <==> t.action.GenerateEvent? || t.action == Dial(true, true))
            && (flow.NotYet? <==> && t.listeners == ListenersPending && t.pool == PoolPending
                                  && (t.action.NoAction? || stuck))
  {
    if t.action.Notify? {
      ActIsTried(s, t);
    }
  }

  /** When a round returns an event, when it sleeps, and when it is followed by another one. */
  lemma RoundFlow(s: State, t: Turn)
    requires Inv(s) && Enabled(s.net, t)
    ensures var flow, free := Round(s, t).1, !EndsRound(t) && !Blocked(s, t);
            && (flow.Ready? <==> || EndsRound(t)
                                 || (free && (t.action.GenerateEvent? || t.action == Dial(true, true))))
            && (flow.NotYet? <==> && t.listeners == ListenersPending && t.pool == PoolPending
                                  && (!free || t.action.NoAction? || NewlyBlocked(s, t)))
  {
    if !EndsRound(t) {
      SlotIsTried(s, t);
      var d := TryDeliver(s.(net := AfterPool(s.net, t.pool)), t.react);
      RoundGoesOn(s, t, d);
      if d.post.slot.Empty? {
        ActFlow(d, t);
      }
    }
  }

  /** The connections made and the events of the pool handled in a round. */
  ghost function RoundSteps(s: State, t: Turn): seq<Step>
    requires t.pool.PoolReady? ==> PoolCan(s.net, t.pool.event)
  {
    if t.listeners == IncomingAdmitted then [Connect]
    else if t.listeners == ListenerReport then []
    else
      (if t.pool.PoolReady? then [Pool(t.pool.event)] else [])
      + (if !EndsRound(t) && !Blocked(s, t) && t.action.Dial? && t.action.admitted then [Connect] else [])
  }

  /** These steps lead from one state of the network to the other. */
  ghost predicate StepsLead(n: Net, steps: seq<Step>, m: Net)
    decreases |steps|
  {
    if steps == [] then n == m
    else SwarmReports.Can(n, steps[0]) && StepsLead(SwarmReports.Next(n, steps[0]), steps[1..], m)
  }

  lemma {:induction false} StepsLeadOn(n: Net, a: seq<Step>, m: Net, b: seq<Step>, l: Net)
    requires StepsLead(n, a, m) && StepsLead(m, b, l)
    ensures StepsLead(n, a + b, l)
    decreases |a|
  {
    if a == [] {
      assert a + b == b;
    } else {
      assert (a + b)[1..] == a[1..] + b;
      StepsLeadOn(SwarmReports.Next(n, a[0]), a[1..], m, b, l);
    }
  }

  lemma OneStepLeads(n: Net, step: Step)
    requires SwarmReports.Can(n, step)
    ensures StepsLead(n, [step], SwarmReports.Next(n, step))
  {
    assert StepsLead(SwarmReports.Next(n, step), [], SwarmReports.Next(n, step));
  }

  lemma PoolStepLeads(n: Net, p: PoolPoll)
    requires p.PoolReady? ==> PoolCan(n, p.event)
    ensures StepsLead(n, if p.PoolReady? then [Pool(p.event)] else [], AfterPool(n, p))
  {
    if p.PoolReady? {
      OneStepLeads(n, Pool(p.event));
    }
  }

  lemma ActConnects(s: State, t: Turn)
    requires s.post.slot.Empty?
    ensures Act(s, t).0.net == if t.action.Dial? && t.action.admitted then SwarmReports.Next(s.net, Connect) else s.net
  {
  }

  /** A round handles what the pool reports and makes the connections that are asked for, once
      and in this order. */
  lemma RoundStepsLead(s: State, t: Turn)
    requires Inv(s) && Enabled(s.net, t)
    ensures StepsLead(s.net, RoundSteps(s, t), Round(s, t).0.net)
  {
    if t.listeners == IncomingAdmitted {
      OneStepLeads(s.net, Connect);
    } else if t.listeners != ListenerReport {
      PoolStepLeads(s.net, t.pool);
      if EndsRound(t) {
        assert RoundSteps(s, t) == [Pool(t.pool.event)];
      } else {
        GoingOnLeads(s, t);
      }
    }
  }

  lemma GoingOnLeads(s: State, t: Turn)
    requires Inv(s) && Enabled(s.net, t) && !EndsRound(t)
    requires StepsLead(s.net, if t.pool.PoolReady? then [Pool(t.pool.event)] else [], AfterPool(s.net, t.pool))
    ensures StepsLead(s.net, RoundSteps(s, t), Round(s, t).0.net)
  {
    var first: seq<Step> := if t.pool.PoolReady? then [Pool(t.pool.event)] else [];
    var n := AfterPool(s.net, t.pool);
    SlotIsTried(s, t);
    var d := TryDeliver(s.(net := n), t.react);
    RoundGoesOn(s, t, d);
    if d.post.slot.Empty? {
      ActConnects(d, t);
    }
    if !Blocked(s, t) && t.action.Dial? && t.action.admitted {
      OneStepLeads(n, Connect);
      StepsLeadOn(s.net, first, n, [Connect], Round(s, t).0.net);
      assert RoundSteps(s, t) == first + [Connect];
    } else {
      assert RoundSteps(s, t) == first;
    }
  }

  // ------------------------------------------------------------------------ runs

  /** The swarm is polled, or its user dials, bans or unbans. */
  datatype Move = Poll(turn: Turn) | Use(step: Step)

  ghost predicate Can(s: State, m: Move) {
    match m
    case Poll(t) => Enabled(s.net, t)
    case Use(step) => !step.Pool?
  }

  function Next(s: State, m: Move): State
    requires Inv(s) && Can(s, m)
  {
    match m
    case Poll(t) => Round(s, t).0
    case Use(step) => s.(net := SwarmReports.Next(s.net, step))
  }

  const START := State(INIT, Post([], Empty, []))

  lemma MoveKeepsInv(s: State, m: Move)
    requires Inv(s) && Can(s, m)
    ensures Inv(Next(s, m))
  {
    match m
    case Poll(t) => RoundKeepsInv(s, t);
    case Use(step) => StepKeepsInv(s.net, step);
  }

  /** A move is defined under the invariant; as every move keeps it, that guard always holds. */
  ghost predicate IsRun(run: seq<State>, moves: seq<Move>) {
    && |run| == |moves| + 1 && run[0] == START
    && forall i {:trigger moves[i]} | 0 <= i < |moves| ::
         Inv(run[i]) ==> Can(run[i], moves[i]) && run[i + 1] == Next(run[i], moves[i])
  }

  lemma {:induction false} RunKeepsInv(run: seq<State>, moves: seq<Move>, k: nat)
    requires IsRun(run, moves) && k < |run|
    ensures Inv(run[k])
  {
    if k > 0 {
      RunKeepsInv(run, moves, k - 1);
      MoveKeepsInv(run[k - 1], moves[k - 1]);
    }
  }

  /** In every run of the swarm the reports agree with the pool, every callback passes the
      oracle but for the endpoint of a connection closed away from home, and every closing is
      paired with its establishment. */
  lemma EveryRunReports(run: seq<State>, moves: seq<Move>, k: nat)
    requires IsRun(run, moves) && k < |run|
    ensures var net := run[k].net;
            && Open(net.calls) == net.established - net.bannedConnections
            && (forall i | 0 <= i < |net.calls| :: Consistent(net.calls, i))
            && (forall i | 0 <= i < |net.calls| && net.calls[i].Closed? :: Paired(net.calls, i))
  {
    RunKeepsInv(run, moves, k);
    var calls := run[k].net.calls;
    forall i | 0 <= i < |calls| ensures Consistent(calls, i) {
      FaithfulIsConsistent(calls, i);
    }
    forall i | 0 <= i < |calls| && calls[i].Closed? ensures Paired(calls, i) {
      FaithfulIsPaired(calls, i);
    }
  }

  /** In every run of the swarm, accepted events come in order of emission, at most once
      each, at captured connections; and whatever was emitted and is neither accepted nor
      pending had failed at every captured connection. */
  lemma EveryRunDelivers(run: seq<State>, moves: seq<Move>, k: nat)
    requires IsRun(run, moves) && k < |run|
    ensures var p := run[k].post;
            && (forall i, j | 0 <= i < j < |p.attempts| && p.attempts[i].seen == Was(Accepts) == p.attempts[j].seen ::
                  p.attempts[i].emission < p.attempts[j].emission)
            && (forall a | a in p.attempts :: a.emission < |p.emitted| && a.id in p.emitted[a.emission].captured
                                           && a.event == p.emitted[a.emission].event)
            && (forall i, c | 0 <= i < |p.emitted| && c in p.emitted[i].captured ::
                  || AcceptedAt(p.attempts, i) || FailedAt(p.attempts, i, c)
                  || (i == |p.emitted| - 1 && p.slot.Pending? && c in Candidates(p.slot.handler)))
  {
    RunKeepsInv(run, moves, k);
  }
}
