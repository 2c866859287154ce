/** Which connections the behaviour hears of, over whole runs: those whose peer was not banned
    when they were established. */
module SwarmBans {
  import opened SwarmReports

  /** The last ban or unban of the peer is a ban. */
  ghost predicate Banned(steps: seq<Step>, p: PeerId) {
    exists i: nat :: BannedSince(steps, i, p)
  }

  ghost predicate BannedSince(steps: seq<Step>, i: nat, p: PeerId) {
    i < |steps| && steps[i] == Ban(p) && forall j | i < j < |steps| :: steps[j] != Unban(p)
  }

  lemma BannedSnoc(steps: seq<Step>, s: Step, p: PeerId)
    ensures Banned(steps + [s], p) <==> s == Ban(p) || (Banned(steps, p) && s != Unban(p))
  {
    var all := steps + [s];
    if s == Ban(p) {
      assert BannedSince(all, |steps|, p);
    } else if Banned(steps, p) && s != Unban(p) {
      var i: nat :| BannedSince(steps, i, p);
      assert BannedSince(all, i, p);
    }
    if Banned(all, p) {
      var i: nat :| BannedSince(all, i, p);
      if i < |steps| {
        assert all[|steps|] != Unban(p);
        assert forall j | i <= j < |steps| :: steps[j] == all[j];
        assert BannedSince(steps, i, p);
      }
    }
  }

  lemma StepBans(n: Net, s: Step, p: PeerId)
    requires Can(n, s)
    ensures p in Next(n, s).bannedPeers <==> s == Ban(p) || (p in n.bannedPeers && s != Unban(p))
  {
    match s
    case Connect =>
    case Ban(_) =>
    case Unban(_) =>
    case Pool(e) => PoolBansNobody(n, e);
  }

  lemma PoolBansNobody(n: Net, e: PoolEvent)
    requires PoolCan(n, e)
    ensures OnPool(n, e).bannedPeers == n.bannedPeers
  {
  }

  /** In every run the banned peers are those whose last ban was not lifted. */
  lemma {:induction false} BannedPeersAre(run: seq<Net>, steps: seq<Step>, k: nat, p: PeerId)
    requires IsRun(run, steps) && k < |run|
    ensures p in run[k].bannedPeers <==> Banned(steps[..k], p)
  {
    if k > 0 {
      BannedPeersAre(run, steps, k - 1, p);
      StepBans(run[k - 1], steps[k - 1], p);
      assert steps[..k] == steps[..k - 1] + [steps[k - 1]];
      BannedSnoc(steps[..k - 1], steps[k - 1], p);
    }
  }

  /** A new connection is withheld exactly if its peer is banned at the time. */
  lemma WithheldIff(run: seq<Net>, steps: seq<Step>, k: nat, id: ConnectionId, c: Connection)
    requires IsRun(run, steps) && k < |steps| && steps[k] == Pool(ConnectionEstablished(id, c))
    ensures id in run[k + 1].bannedConnections <==> Banned(steps[..k], c.peer)
    ensures id in run[k + 1].established && run[k + 1].established[id] == c
  {
    BannedPeersAre(run, steps, k, c.peer);
    RunKeepsInv(run, steps, k);
  }

  // ------------------------------------------------------------- what is heard of it

  ghost predicate Mentioned(calls: seq<Call>, id: ConnectionId) {
    exists x | x in calls :: x.id == id
  }

  /** A connection that is, or was, established and of which nothing is ever said. */
  ghost predicate Silent(n: Net, id: ConnectionId) {
    && id < n.nextId && id !in n.pending && !Mentioned(n.calls, id)
    && (id in n.established ==> id in n.bannedConnections)
  }

  lemma StepKeepsSilent(n: Net, s: Step, id: ConnectionId)
    requires Can(n, s) && Silent(n, id)
    ensures Silent(Next(n, s), id)
  {
    match s
    case Connect =>
    case Ban(_) =>
    case Unban(_) =>
    case Pool(e) => PoolKeepsSilent(n, e, id);
  }

  lemma PoolKeepsSilent(n: Net, e: PoolEvent, id: ConnectionId)
    requires PoolCan(n, e) && Silent(n, id)
    ensures Silent(OnPool(n, e), id)
  {
    match e
    case PendingFailed(_) =>
    case ConnectionEstablished(_, _) =>
    case ConnectionClosed(_) =>
    case ConnectionEvent(_) =>
    case EndpointChanged(_, _) =>
  }

  lemma {:induction false} StaysSilent(run: seq<Net>, steps: seq<Step>, k: nat, j: nat, id: ConnectionId)
    requires IsRun(run, steps) && k <= j < |run| && Silent(run[k], id)
    ensures Silent(run[j], id)
  {
    if k < j {
      StaysSilent(run, steps, k, j - 1, id);
      StepKeepsSilent(run[j - 1], steps[j - 1], id);
    }
  }

  lemma StepKeepsCalls(n: Net, s: Step)
    requires Can(n, s)
    ensures n.calls <= Next(n, s).calls
  {
  }

  lemma {:induction false} CallsGrow(run: seq<Net>, steps: seq<Step>, k: nat, j: nat)
    requires IsRun(run, steps) && k <= j < |run|
    ensures run[k].calls <= run[j].calls
  {
    if k < j {
      CallsGrow(run, steps, k, j - 1);
      StepKeepsCalls(run[j - 1], steps[j - 1]);
    }
  }

  /** The behaviour hears of a connection, then or later, exactly if its peer was not banned when
      it was established, whatever is banned or unbanned afterwards. */
  lemma HeardOfIff(run: seq<Net>, steps: seq<Step>, k: nat, j: nat, id: ConnectionId, c: Connection)
    requires IsRun(run, steps) && k < j < |run| && steps[k] == Pool(ConnectionEstablished(id, c))
    ensures Mentioned(run[j].calls, id) <==> !Banned(steps[..k], c.peer)
  {
    BannedPeersAre(run, steps, k, c.peer);
    RunKeepsInv(run, steps, k);
    RunKeepsInv(run, steps, k + 1);
    if Banned(steps[..k], c.peer) {
      assert Silent(run[k + 1], id);
      StaysSilent(run, steps, k + 1, j, id);
    } else {
      assert run[k + 1].calls == run[k].calls + [EstablishedCall(run[k], id, c)];
      CallsGrow(run, steps, k + 1, j);
      assert run[j].calls[|run[k].calls|] == EstablishedCall(run[k], id, c);
    }
  }

  // ------------------------------------------------------------------ every callback

  /** The callback is of the kind the event calls for. */
  predicate IsReportOf(x: Call, e: PoolEvent) {
    && x.id == e.id
    && match e
       case PendingFailed(_) => false
       case ConnectionEstablished(_, c) => x.Established? && x.peer == c.peer && x.endpoint == c.endpoint
       case ConnectionClosed(_) => x.Closed?
       case ConnectionEvent(_) => x.Event?
       case EndpointChanged(_, endpoint) => x.AddressChange? && x.endpoint == endpoint
  }

  /** A connection of the given peer that was established, and whether it is withheld. */
  ghost predicate Known(n: Net, id: ConnectionId, p: PeerId, withheld: bool) {
    && id < n.nextId && id !in n.pending
    && (id in n.established ==> n.established[id].peer == p && (id in n.bannedConnections <==> withheld))
  }

  lemma StepKeepsKnown(n: Net, s: Step, id: ConnectionId, p: PeerId, withheld: bool)
    requires Can(n, s) && Known(n, id, p, withheld)
    ensures Known(Next(n, s), id, p, withheld)
  {
    match s
    case Connect =>
    case Ban(_) =>
    case Unban(_) =>
    case Pool(e) => PoolKeepsKnown(n, e, id, p, withheld);
  }

  lemma PoolKeepsKnown(n: Net, e: PoolEvent, id: ConnectionId, p: PeerId, withheld: bool)
    requires PoolCan(n, e) && Known(n, id, p, withheld)
    ensures Known(OnPool(n, e), id, p, withheld)
  {
    match e
    case PendingFailed(_) =>
    case ConnectionEstablished(_, _) =>
    case ConnectionClosed(_) =>
    case ConnectionEvent(_) =>
    case EndpointChanged(_, _) =>
  }

  lemma {:induction false} StaysKnown(
    run: seq<Net>, steps: seq<Step>, k: nat, j: nat, id: ConnectionId, p: PeerId, withheld: bool)
    requires IsRun(run, steps) && k <= j < |run| && Known(run[k], id, p, withheld)
    ensures Known(run[j], id, p, withheld)
  {
    if k < j {
      StaysKnown(run, steps, k, j - 1, id, p, withheld);
      StepKeepsKnown(run[j - 1], steps[j - 1], id, p, withheld);
    }
  }

  /** Every later event of a connection is passed on, as what it is and under the connection's
      peer, or not at all if the peer was banned when the connection was established. */
  lemma PassedOnIff(run: seq<Net>, steps: seq<Step>, k: nat, j: nat, id: ConnectionId, c: Connection, e: PoolEvent)
    requires IsRun(run, steps) && k < j < |steps| && steps[k] == Pool(ConnectionEstablished(id, c))
    requires steps[j] == Pool(e) && e.id == id
    ensures if Banned(steps[..k], c.peer) then run[j + 1].calls == run[j].calls
            else && |run[j + 1].calls| == |run[j].calls| + 1 && run[j].calls <= run[j + 1].calls
                 && var x := run[j + 1].calls[|run[j].calls|]; IsReportOf(x, e) && x.peer == c.peer
  {
    WithheldIff(run, steps, k, id, c);
    RunKeepsInv(run, steps, k + 1);
    StaysKnown(run, steps, k + 1, j, id, c.peer, Banned(steps[..k], c.peer));
    assert Can(run[j], steps[j]) && run[j + 1] == Next(run[j], steps[j]);
  }

  /** The report of a new connection, and that nothing else is ever reported. */
  lemma FirstReportIff(run: seq<Net>, steps: seq<Step>, k: nat)
    requires IsRun(run, steps) && k < |steps|
    ensures match steps[k]
            case Pool(ConnectionEstablished(id, c)) =>
              if Banned(steps[..k], c.peer) then run[k + 1].calls == run[k].calls
              else && |run[k + 1].calls| == |run[k].calls| + 1 && run[k].calls <= run[k + 1].calls
                   && IsReportOf(run[k + 1].calls[|run[k].calls|], ConnectionEstablished(id, c))
            case Pool(PendingFailed(_)) => run[k + 1].calls == run[k].calls
            case Pool(_) => true
            case _ => run[k + 1].calls == run[k].calls
  {
    assert Can(run[k], steps[k]) && run[k + 1] == Next(run[k], steps[k]);
    match steps[k]
    case Pool(ConnectionEstablished(id, c)) => BannedPeersAre(run, steps, k, c.peer);
    case _ =>
  }

  // --------------------------------------------------------------- what is in the pool

  predicate Establishes(s: Step, id: ConnectionId) {
    s.Pool? && s.event.ConnectionEstablished? && s.event.id == id
  }

  /** The connection was established, and has not been closed since. */
  ghost predicate Lives(steps: seq<Step>, id: ConnectionId) {
    exists i: nat :: LivesSince(steps, i, id)
  }

  ghost predicate LivesSince(steps: seq<Step>, i: nat, id: ConnectionId) {
    && i < |steps| && Establishes(steps[i], id)
    && forall j | i < j < |steps| :: steps[j] != Pool(ConnectionClosed(id))
  }

  lemma LivesSnoc(steps: seq<Step>, s: Step, id: ConnectionId)
    ensures Lives(steps + [s], id)
       <==> Establishes(s, id) || (Lives(steps, id) && s != Pool(ConnectionClosed(id)))
  {
    var all := steps + [s];
    if Establishes(s, id) {
      assert LivesSince(all, |steps|, id);
    } else if Lives(steps, id) && s != Pool(ConnectionClosed(id)) {
      var i: nat :| LivesSince(steps, i, id);
      assert LivesSince(all, i, id);
    }
    if Lives(all, id) {
      var i: nat :| LivesSince(all, i, id);
      if i < |steps| {
        assert all[|steps|] != Pool(ConnectionClosed(id));
        assert forall j | i <= j < |steps| :: steps[j] == all[j];
        assert LivesSince(steps, i, id);
      }
    }
  }

  lemma StepLives(n: Net, s: Step, id: ConnectionId)
    requires Can(n, s)
    ensures id in Next(n, s).established
       <==> Establishes(s, id) || (id in n.established && s != Pool(ConnectionClosed(id)))
  {
    match s
    case Connect =>
    case Ban(_) =>
    case Unban(_) =>
    case Pool(e) =>
      match e {
        case PendingFailed(_) =>
        case ConnectionEstablished(_, _) =>
        case ConnectionClosed(_) =>
        case ConnectionEvent(_) =>
        case EndpointChanged(_, _) =>
      }
  }

  /** How many connections were begun. */
  function Connects(steps: seq<Step>): nat {
    if steps == [] then 0
    else Connects(steps[..|steps| - 1]) + (if steps[|steps| - 1] == Connect then 1 else 0)
  }

  predicate Settles(s: Step, id: ConnectionId) {
    s == Pool(PendingFailed(id)) || Establishes(s, id)
  }

  predicate Unsettled(steps: seq<Step>, id: ConnectionId) {
    forall j | 0 <= j < |steps| :: !Settles(steps[j], id)
  }

  lemma UnsettledSnoc(steps: seq<Step>, s: Step, id: ConnectionId)
    ensures Unsettled(steps + [s], id) <==> Unsettled(steps, id) && !Settles(s, id)
  {
    var more := steps + [s];
    assert more[|steps|] == s;
    if Unsettled(more, id) {
      forall j | 0 <= j < |steps| ensures !Settles(steps[j], id) {
        assert more[j] == steps[j];
      }
    }
  }

  lemma StepPends(n: Net, s: Step, id: ConnectionId)
    requires Can(n, s) && (id in n.pending ==> id < n.nextId)
    ensures id in Next(n, s).pending <==> (id in n.pending && !Settles(s, id)) || (s == Connect && id == n.nextId)
    ensures Next(n, s).nextId == n.nextId + (if s == Connect then 1 else 0)
  {
    match s
    case Connect =>
    case Ban(_) =>
    case Unban(_) =>
    case Pool(e) =>
      match e {
        case PendingFailed(_) =>
        case ConnectionEstablished(_, _) =>
        case ConnectionClosed(_) =>
        case ConnectionEvent(_) =>
        case EndpointChanged(_, _) =>
      }
  }

  /** In every run connections are numbered as they are begun, and are pending until they fail or
      are established. */
  lemma {:induction false} PendingAre(run: seq<Net>, steps: seq<Step>, k: nat, id: ConnectionId)
    requires IsRun(run, steps) && k < |run|
    ensures run[k].nextId == Connects(steps[..k])
    ensures id in run[k].pending <==> id < run[k].nextId && Unsettled(steps[..k], id)
    ensures id >= run[k].nextId ==> Unsettled(steps[..k], id)
  {
    if k > 0 {
      PendingAre(run, steps, k - 1, id);
      assert Can(run[k - 1], steps[k - 1]) && run[k] == Next(run[k - 1], steps[k - 1]);
      StepPends(run[k - 1], steps[k - 1], id);
      UnsettledSnoc(steps[..k - 1], steps[k - 1], id);
      assert steps[..k] == steps[..k - 1] + [steps[k - 1]];
    }
  }

  /** In every run the pool has exactly the connections established and not closed. */
  lemma {:induction false} EstablishedAre(run: seq<Net>, steps: seq<Step>, k: nat, id: ConnectionId)
    requires IsRun(run, steps) && k < |run|
    ensures id in run[k].established <==> Lives(steps[..k], id)
  {
    if k > 0 {
      EstablishedAre(run, steps, k - 1, id);
      StepLives(run[k - 1], steps[k - 1], id);
      assert run[k] == Next(run[k - 1], steps[k - 1]);
      assert steps[..k] == steps[..k - 1] + [steps[k - 1]];
      LivesSnoc(steps[..k - 1], steps[k - 1], id);
    }
  }
}
