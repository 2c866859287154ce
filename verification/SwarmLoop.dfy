/** The swarm as an object: reports, delivery and the poll loop. */
module SwarmLoop {
  import opened SwarmReports
  import opened SwarmDelivery
  import opened SwarmTurns
  import opened CallTrace

  /** How many of the listed connections are not hidden. */
  function CountShown(ids: seq<ConnectionId>, hidden: set<ConnectionId>): nat {
    if ids == [] then 0
    else CountShown(ids[..|ids| - 1], hidden) + (if ids[|ids| - 1] in hidden then 0 else 1)
  }

  lemma ListsFront(ids: seq<ConnectionId>, all: set<ConnectionId>)
    requires Lists(ids, all) && ids != []
    ensures var front, last := ids[..|ids| - 1], ids[|ids| - 1];
            Lists(front, all - {last}) && last in all
  {
    var front, last := ids[..|ids| - 1], ids[|ids| - 1];
    assert ids == front + [last] && last in ids;
  }

  lemma {:induction false} CountShownIsSize(ids: seq<ConnectionId>, all: set<ConnectionId>, hidden: set<ConnectionId>)
    requires Lists(ids, all)
    ensures CountShown(ids, hidden) == |all - hidden|
  {
    if ids == [] {
      assert all == {};
    } else {
      var front, last := ids[..|ids| - 1], ids[|ids| - 1];
      ListsFront(ids, all);
      CountShownIsSize(front, all - {last}, hidden);
      assert all - {last} - hidden == all - hidden - {last};
    }
  }

  method FilterCount(ids: seq<ConnectionId>, hidden: set<ConnectionId>) returns (n: nat)
    ensures n == CountShown(ids, hidden)
  {
    n := 0;
    for i := 0 to |ids|
      invariant n == CountShown(ids[..i], hidden)
    {
      assert ids[..i + 1][..i] == ids[..i];
      if ids[i] !in hidden {
        n := n + 1;
      }
    }
    assert ids[..|ids|] == ids;
  }

  /** The connections of a set, in some order. */
  method ListSet(all: set<ConnectionId>) returns (ids: seq<ConnectionId>)
    ensures Lists(ids, all)
  {
    ids := [];
    var rest := all;
    while rest != {}
      invariant rest <= all && Lists(ids, all - rest)
    {
      var c :| c in rest;
      ids, rest := ids + [c], rest - {c};
    }
  }

  /** The connections to which the event may still be delivered; none if it has been, or
      can no longer be. */
  method NotifyAny(ids: seq<ConnectionId>, conns: map<ConnectionId, Connection>, event: string, react: Readiness,
                   ghost n: nat)
    returns (kept: seq<ConnectionId>, ghost made: seq<Attempt>)
    ensures kept == if FirstAccepting(ids, conns, react) < |ids| then [] else Busy(ids, conns, react)
    ensures made == Attempts(n, event, Asked(ids, conns, react), conns, react)
  {
    made := [];
    var busy: seq<ConnectionId> := [];
    var undelivered := true;
    var i := 0;
    while i < |ids|
      invariant i <= |ids| && undelivered
      invariant forall j | 0 <= j < i :: Look(conns, react, ids[j]) != Was(Accepts)
      invariant busy == Busy(ids[..i], conns, react)
      invariant made == Attempts(n, event, ids[..i], conns, react)
    {
      var id := ids[i];
      AskedOneMore(n, event, ids, i, conns, react);
      made := made + [Attempt(n, id, event, Look(conns, react, id))];
      if id in conns {
        match react(id) {
          case NotReady => busy := busy + [id];
          case Closing =>
          case Accepts =>
            undelivered := false;
            break;
          case Refuses =>
        }
      }
      i := i + 1;
    }
    AskedUpTo(ids, i, conns, react);
    kept := if undelivered then busy else [];
  }

  class Swarm {
    var nextId: ConnectionId
    var pending: set<ConnectionId>
    var established: map<ConnectionId, Connection>
    var bannedPeers: set<PeerId>
    var bannedConnections: set<ConnectionId>
    const behaviour: CallTraceBehaviour
    var slot: Slot
    ghost var emitted: seq<Emission>
    ghost var attempts: seq<Attempt>

    ghost function Network(): Net
      reads this, behaviour
    {
      Net(nextId, pending, established, bannedPeers, bannedConnections, behaviour.calls)
    }

    ghost function Mail(): Post
      reads this
    {
      Post(emitted, slot, attempts)
    }

    ghost function Now(): State
      reads this, behaviour
    {
      State(Network(), Mail())
    }

    ghost predicate Valid()
      reads this, behaviour
    {
      SwarmTurns.Inv(Now()) && behaviour.Valid()
    }

    constructor ()
      ensures Valid() && fresh(behaviour) && Now() == START
    {
      nextId, pending, established, bannedPeers, bannedConnections := 0, {}, map[], {}, {};
      slot, emitted, attempts := Empty, [], [];
      behaviour := new CallTraceBehaviour();
    }

    method BanPeerId(p: PeerId)
      requires Valid()
      modifies this`bannedPeers
      ensures Valid() && Now() == SwarmTurns.Next(old(Now()), Use(Ban(p)))
    {
      StepKeepsInv(Network(), Ban(p));
      if p !in bannedPeers {
        bannedPeers := bannedPeers + {p};
      }
    }

    method UnbanPeerId(p: PeerId)
      requires Valid()
      modifies this`bannedPeers
      ensures Valid() && Now() == SwarmTurns.Next(old(Now()), Use(Unban(p)))
    {
      StepKeepsInv(Network(), Unban(p));
      bannedPeers := bannedPeers - {p};
    }

    /** A new dial or incoming connection enters the pool. */
    method AddPending()
      requires Valid()
      modifies this`nextId, this`pending
      ensures Valid() && Now() == SwarmTurns.Next(old(Now()), Use(Connect))
    {
      StepKeepsInv(Network(), Connect);
      pending := pending + {nextId};
      nextId := nextId + 1;
    }

    /** The number of a peer's connections that have been reported. */
    method CountReported(conns: map<ConnectionId, Connection>, p: PeerId) returns (n: nat)
      ensures n == |OfPeer(conns, p) - bannedConnections|
    {
      var ids := ListSet(OfPeer(conns, p));
      n := FilterCount(ids, bannedConnections);
      CountShownIsSize(ids, OfPeer(conns, p), bannedConnections);
    }

    method OnEstablished(id: ConnectionId, c: Connection)
      requires Valid() && id in pending
      modifies this`pending, this`established, this`bannedConnections, behaviour
      ensures Valid() && Mail() == old(Mail())
      ensures Network() == OnPool(old(Network()), ConnectionEstablished(id, c))
    {
      ReportIsRight(Network(), ConnectionEstablished(id, c));
      if c.peer in bannedPeers {
        bannedConnections := bannedConnections + {id};
      } else {
        var other := CountReported(established, c.peer);
        behaviour.InjectConnectionEstablished(c.peer, id, c.endpoint, other);
      }
      pending, established := pending - {id}, established[id := c];
    }

    method OnClosed(id: ConnectionId)
      requires Valid() && id in established
      modifies this`established, this`bannedConnections, behaviour
      ensures Valid() && Mail() == old(Mail())
      ensures Network() == OnPool(old(Network()), ConnectionClosed(id))
    {
      ReportIsRight(Network(), ConnectionClosed(id));
      var c := established[id];
      var rest := established - {id};
      if id in bannedConnections {
        bannedConnections := bannedConnections - {id};
      } else {
        var remaining := CountReported(rest, c.peer);
        var _ := behaviour.InjectConnectionClosed(c.peer, id, c.endpoint, remaining);
      }
      established := rest;
    }

    method OnConnectionEvent(id: ConnectionId)
      requires Valid() && id in established
      modifies behaviour
      ensures Valid() && Mail() == old(Mail())
      ensures Network() == OnPool(old(Network()), ConnectionEvent(id))
    {
      ReportIsRight(Network(), ConnectionEvent(id));
      if id !in bannedConnections {
        behaviour.InjectEvent(established[id].peer, id);
      }
    }

    method OnAddressChange(id: ConnectionId, endpoint: Endpoint)
      requires Valid() && id in established
      modifies this`established, behaviour
      ensures Valid() && Mail() == old(Mail())
      ensures Network() == OnPool(old(Network()), EndpointChanged(id, endpoint))
    {
      ReportIsRight(Network(), EndpointChanged(id, endpoint));
      var c := established[id];
      established := established[id := c.(endpoint := endpoint)];
      if id !in bannedConnections {
        behaviour.InjectAddressChange(c.peer, id, c.endpoint, endpoint);
      }
    }

    method OnPoolEvent(e: PoolEvent)
      requires Valid() && PoolCan(Network(), e)
      modifies this`pending, this`established, this`bannedConnections, behaviour
      ensures Valid() && Mail() == old(Mail())
      ensures Network() == OnPool(old(Network()), e)
    {
      match e {
        case PendingFailed(id) =>
          StepKeepsInv(Network(), Pool(e));
          pending := pending - {id};
        case ConnectionEstablished(id, c) => OnEstablished(id, c);
        case ConnectionClosed(id) => OnClosed(id);
        case ConnectionEvent(id) => OnConnectionEvent(id);
        case EndpointChanged(id, endpoint) => OnAddressChange(id, endpoint);
      }
    }

    /** Whether the event is still to be delivered. */
    method NotifyOne(id: ConnectionId, event: string, react: Readiness) returns (kept: bool)
      requires id in established && emitted != []
      modifies this`attempts
      ensures kept == (Look(established, react, id) == Was(NotReady))
      ensures attempts == old(attempts) + [Attempt(|emitted| - 1, id, event, Look(established, react, id))]
    {
      attempts := attempts + [Attempt(|emitted| - 1, id, event, Was(react(id)))];
      match react(id) {
        case NotReady => kept := true;
        case Closing => kept := false;
        case Accepts => kept := false;
        case Refuses => kept := false;
      }
    }

    method TryOne(peer: PeerId, id: ConnectionId, event: string, react: Readiness)
      requires slot.Empty? && emitted != []
      modifies this`slot, this`attempts
      ensures Mail() == Deliver(Post(emitted, Pending(peer, One(id), event), old(attempts)), established, react)
    {
      if id in established {
        var kept := NotifyOne(id, event, react);
        if kept {
          slot := Pending(peer, One(id), event);
        }
      } else {
        attempts := attempts + [Attempt(|emitted| - 1, id, event, Gone)];
      }
    }

    method TryAny(peer: PeerId, ids: seq<ConnectionId>, event: string, react: Readiness)
      requires slot.Empty? && emitted != []
      modifies this`slot, this`attempts
      ensures Mail() == Deliver(Post(emitted, Pending(peer, Any(ids), event), old(attempts)), established, react)
    {
      var kept;
      ghost var made;
      kept, made := NotifyAny(ids, established, event, react, |emitted| - 1);
      attempts := attempts + made;
      if kept != [] {
        slot := Pending(peer, Any(kept), event);
      }
    }

    /** One attempt to deliver an event, which stays in the slot if it may still arrive. */
    method Try(peer: PeerId, handler: NotifyHandler, event: string, react: Readiness)
      requires slot.Empty? && emitted != []
      modifies this`slot, this`attempts
      ensures Mail() == Deliver(Post(emitted, Pending(peer, handler, event), old(attempts)), established, react)
    {
      match handler {
        case One(id) => TryOne(peer, id, event, react);
        case Any(ids) => TryAny(peer, ids, event, react);
      }
    }

    method DeliverPending(react: Readiness)
      requires Valid() && slot.Pending?
      modifies this`slot, this`attempts
      ensures Valid() && Mail() == Deliver(old(Mail()), established, react)
    {
      DeliverKeepsInv(Mail(), established, react);
      var taken := slot;
      slot := Empty;
      Try(taken.peer, taken.handler, taken.event, react);
    }

    method Emit(peer: PeerId, handler: NotifyHandler, event: string, react: Readiness)
      requires Valid() && slot.Empty?
      modifies this`slot, this`emitted, this`attempts
      ensures Valid() && Mail() == SwarmDelivery.Emit(old(Mail()), peer, handler, event, established, react)
    {
      ghost var after := SwarmDelivery.Emit(Mail(), peer, handler, event, established, react);
      EmitKeepsInv(Mail(), peer, handler, event, established, react);
      emitted := emitted + [Emission(peer, Candidates(handler), event)];
      Try(peer, handler, event, react);
      assert Mail() == after;
    }

    /** The behaviour is polled, and what it wants is done. */
    method PollBehaviour(t: Turn) returns (flow: Flow)
      requires Valid() && slot.Empty?
      modifies this`nextId, this`pending, this`slot, this`emitted, this`attempts
      ensures Valid() && (Now(), flow) == Act(old(Now()), t)
    {
      match t.action {
        case NoAction => flow := if Quiet(t) then NotYet else Again;
        case GenerateEvent => flow := Ready;
        case Dial(admitted, named) =>
          if admitted {
            AddPending();
          }
          flow := if admitted && named then Ready else Again;
        case Notify(peer, target, event) =>
          Emit(peer, HandlerOf(t), event, t.reactNew);
          flow := if slot.Pending? && Quiet(t) then NotYet else Again;
        case OtherAction => flow := Again;
      }
    }

    /** One round of the poll loop. */
    method Turn(t: Turn) returns (flow: Flow)
      requires Valid() && Enabled(Network(), t)
      modifies this, behaviour
      ensures Valid() && (Now(), flow) == Round(old(Now()), t)
    {
      if t.listeners.IncomingAdmitted? {
        AddPending();
        return Ready;
      }
      if t.listeners.ListenerReport? {
        return Ready;
      }
      if t.pool.PoolReady? {
        OnPoolEvent(t.pool.event);
        if ReturnsEvent(t.pool.event) {
          return Ready;
        }
      }
      if slot.Pending? {
        DeliverPending(t.react);
        if slot.Pending? {
          return if Quiet(t) then NotYet else Again;
        }
      }
      assert slot.Empty?;
      flow := PollBehaviour(t);
    }

    /** Rounds until one returns, or the script of what they find ends. */
    method PollNextEvent(script: seq<Turn>) returns (flow: Flow, used: nat)
      requires Valid() && Fits(Now(), script, 0)
      modifies this, behaviour
      ensures Valid() && (Now(), flow, used) == PollRounds(old(Now()), script, 0)
    {
      flow, used := Again, 0;
      ghost var s := Now();
      ghost var goal := PollRounds(s, script, 0);
      while used < |script| && flow.Again?
        invariant used <= |script| && Valid() && s == Now()
        invariant if flow.Again? then Fits(s, script, used) && PollRounds(s, script, used) == goal
                  else goal == (s, flow, used)
      {
        PollOneRound(s, script, used);
        flow := Turn(script[used]);
        s, used := Now(), used + 1;
      }
    }
  }

  lemma AskedUpTo(ids: seq<ConnectionId>, i: nat, conns: map<ConnectionId, Connection>, react: Readiness)
    requires i <= |ids| && forall j | 0 <= j < i :: Look(conns, react, ids[j]) != Was(Accepts)
    requires i < |ids| ==> Look(conns, react, ids[i]) == Was(Accepts)
    ensures FirstAccepting(ids, conns, react) == i
    ensures Asked(ids, conns, react) == if i < |ids| then ids[..i + 1] else ids[..i]
    ensures i == |ids| ==> ids[..i] == ids
  {
  }

  lemma AskedOneMore(n: nat, event: string, ids: seq<ConnectionId>, i: nat,
                     conns: map<ConnectionId, Connection>, react: Readiness)
    requires i < |ids|
    ensures var seen := Look(conns, react, ids[i]);
            && Attempts(n, event, ids[..i + 1], conns, react)
                 == Attempts(n, event, ids[..i], conns, react) + [Attempt(n, ids[i], event, seen)]
            && Busy(ids[..i + 1], conns, react)
                 == if seen == Was(NotReady) then Busy(ids[..i], conns, react) + [ids[i]]
                    else Busy(ids[..i], conns, react)
  {
    assert ids[..i + 1][..i] == ids[..i];
  }

  /** A script is possible if each round is, in the state the earlier ones lead to. */
  ghost predicate Fits(s: State, script: seq<Turn>, used: nat)
    requires SwarmTurns.Inv(s) && used <= |script|
    decreases |script| - used
  {
    used == |script| ||
    (&& Enabled(s.net, script[used])
     && (RoundKeepsInv(s, script[used]);
         Round(s, script[used]).1.Again? ==> Fits(Round(s, script[used]).0, script, used + 1)))
  }

  function PollRounds(s: State, script: seq<Turn>, used: nat): (State, Flow, nat)
    requires SwarmTurns.Inv(s) && used <= |script| && Fits(s, script, used)
    decreases |script| - used
  {
    if used == |script| then (s, Again, used)
    else
      RoundKeepsInv(s, script[used]);
      var (m, flow) := Round(s, script[used]);
      if flow.Again? then PollRounds(m, script, used + 1) else (m, flow, used + 1)
  }

  lemma PollOneRound(s: State, script: seq<Turn>, used: nat)
    requires SwarmTurns.Inv(s) && used < |script| && Fits(s, script, used)
    ensures Enabled(s.net, script[used])
    ensures var (m, flow) := Round(s, script[used]);
            if flow.Again? then SwarmTurns.Inv(m) && Fits(m, script, used + 1)
                                && PollRounds(s, script, used) == PollRounds(m, script, used + 1)
            else PollRounds(s, script, used) == (m, flow, used + 1)
  {
    RoundKeepsInv(s, script[used]);
  }

  ghost predicate IsRound(s: State, t: Turn, m: State, flow: Flow) {
    SwarmTurns.Inv(s) && Enabled(s.net, t) && Round(s, t) == (m, flow)
  }

  /** The states and results of rounds `used`, `used + 1` and so on of the script. */
  ghost predicate AreRounds(run: seq<State>, flows: seq<Flow>, script: seq<Turn>, used: nat) {
    && |run| == |flows| + 1 && used + |flows| <= |script|
    && forall i | 0 <= i < |flows| :: IsRound(run[i], script[used + i], run[i + 1], flows[i])
  }

  lemma {:induction false} RoundAhead(s: State, flow: Flow, run: seq<State>, flows: seq<Flow>,
                                      script: seq<Turn>, used: nat)
    requires used < |script| && AreRounds(run, flows, script, used + 1)
    requires IsRound(s, script[used], run[0], flow)
    ensures AreRounds([s] + run, [flow] + flows, script, used)
  {
    var states, results := [s] + run, [flow] + flows;
    forall i | 0 <= i < |results| ensures IsRound(states[i], script[used + i], states[i + 1], results[i]) {
      if i > 0 {
        assert IsRound(run[i - 1], script[used + 1 + (i - 1)], run[i], flows[i - 1]);
      }
    }
  }

  /** Rounds are performed as long as they go on, and the last one decides the result. */
  ghost predicate Performs(s: State, run: seq<State>, flows: seq<Flow>, script: seq<Turn>, used: nat,
                           result: (State, Flow, nat))
  {
    && AreRounds(run, flows, script, used) && run[0] == s
    && (forall i | 0 <= i < |flows| - 1 :: flows[i].Again?)
    && var last := if flows == [] then Again else flows[|flows| - 1];
       result == (run[|flows|], last, used + |flows|) && (last.Again? ==> used + |flows| == |script|)
  }

  lemma {:induction false} PerformsAhead(s: State, m: State, run: seq<State>, flows: seq<Flow>,
                                         script: seq<Turn>, used: nat, result: (State, Flow, nat))
    requires used < |script| && IsRound(s, script[used], m, Again)
    requires Performs(m, run, flows, script, used + 1, result)
    ensures Performs(s, [s] + run, [Again] + flows, script, used, result)
  {
    RoundAhead(s, Again, run, flows, script, used);
    var all := [Again] + flows;
    forall i | 0 <= i < |all| - 1 ensures all[i].Again? {
      assert i > 0 ==> all[i] == flows[i - 1];
    }
    assert ([s] + run)[|all|] == run[|flows|];
    assert flows != [] ==> all[|all| - 1] == flows[|flows| - 1];
  }

  /** What a poll returns is what its rounds amount to. */
  lemma {:induction false} PollIsRounds(s: State, script: seq<Turn>, used: nat)
    returns (run: seq<State>, flows: seq<Flow>)
    requires SwarmTurns.Inv(s) && used <= |script| && Fits(s, script, used)
    ensures Performs(s, run, flows, script, used, PollRounds(s, script, used))
    decreases |script| - used
  {
    if used == |script| {
      run, flows := [s], [];
    } else {
      PollOneRound(s, script, used);
      var (m, flow) := Round(s, script[used]);
      assert IsRound(s, script[used], m, flow);
      if flow.Again? {
        run, flows := PollIsRounds(m, script, used + 1);
        PerformsAhead(s, m, run, flows, script, used, PollRounds(s, script, used));
        run, flows := [s] + run, [Again] + flows;
      } else {
        run, flows := [s, m], [flow];
      }
    }
  }

  /** The loop ends: it does not get past the first round in which listeners and pool are quiet
      and the behaviour wants nothing. */
  lemma {:induction false} EndsOnceIdle(s: State, script: seq<Turn>, used: nat, i: nat)
    requires SwarmTurns.Inv(s) && used <= i < |script| && Fits(s, script, used)
    requires Quiet(script[i]) && script[i].action.NoAction?
    ensures !PollRounds(s, script, used).1.Again? && PollRounds(s, script, used).2 <= i + 1
    decreases i - used
  {
    PollOneRound(s, script, used);
    var (m, flow) := Round(s, script[used]);
    if used == i {
      SleepsOnlyWhenIdle(s, script[i]);
    } else if flow.Again? {
      EndsOnceIdle(m, script, used + 1, i);
    }
  }

  lemma AtMostOneCall(n: Net, e: PoolEvent)
    requires PoolCan(n, e)
    ensures var more := OnPool(n, e).calls; more == n.calls || (|more| == |n.calls| + 1 && more[..|n.calls|] == n.calls)
  {
  }

  lemma LastIsRight(calls: seq<Call>, more: seq<Call>)
    requires Faithful(more) && |more| == |calls| + 1 && more[..|calls|] == calls
    ensures more == calls + [more[|calls|]] && Right(calls, more[|calls|])
  {
  }

  /** A callback made for a pool event is right in view of the earlier ones. */
  lemma ReportIsRight(n: Net, e: PoolEvent)
    requires SwarmReports.Inv(n) && PoolCan(n, e)
    ensures var m := OnPool(n, e);
            && SwarmReports.Inv(m)
            && (m.calls != n.calls ==> m.calls == n.calls + [m.calls[|n.calls|]] && Right(n.calls, m.calls[|n.calls|]))
  {
    StepKeepsInv(n, Pool(e));
    assert OnPool(n, e) == SwarmReports.Next(n, Pool(e));
    AtMostOneCall(n, e);
    if OnPool(n, e).calls != n.calls {
      LastIsRight(n.calls, OnPool(n, e).calls);
    }
  }
}
