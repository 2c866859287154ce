/** What the swarm tells its behaviour about connections, across banning and unbanning. */
module SwarmReports {
  import opened Wrappers

  type PeerId = string

  type ConnectionId = nat

  type Endpoint = string

  /** Whose a connection is, and how it is currently reached. */
  datatype Connection = Connection(peer: PeerId, endpoint: Endpoint)

  /** The callbacks of the behaviour, with the counts they are given. */
  datatype Call =
    | Established(peer: PeerId, id: ConnectionId, endpoint: Endpoint, other: nat)
    | Closed(peer: PeerId, id: ConnectionId, endpoint: Endpoint, remaining: nat)
    | Event(peer: PeerId, id: ConnectionId)
    | AddressChange(peer: PeerId, id: ConnectionId, previous: Endpoint, endpoint: Endpoint)

  /** The pool of connections, what is banned, and every callback made so far. */
  datatype Net = Net(
    nextId: ConnectionId,
    pending: set<ConnectionId>,
    established: map<ConnectionId, Connection>,
    bannedPeers: set<PeerId>,
    bannedConnections: set<ConnectionId>,
    calls: seq<Call>)

  datatype PoolEvent =
    | PendingFailed(id: ConnectionId)
    | ConnectionEstablished(id: ConnectionId, connection: Connection)
    | ConnectionClosed(id: ConnectionId)
    | ConnectionEvent(id: ConnectionId)
    | EndpointChanged(id: ConnectionId, endpoint: Endpoint)

  /** The tasks of the pool report on a connection only in the state it is in. */
  predicate PoolCan(n: Net, e: PoolEvent) {
    if e.PendingFailed? || e.ConnectionEstablished? then e.id in n.pending else e.id in n.established
  }

  function OfPeer(conns: map<ConnectionId, Connection>, p: PeerId): set<ConnectionId> {
    set c | c in conns && conns[c].peer == p
  }

  function OnPool(n: Net, e: PoolEvent): Net
    requires PoolCan(n, e)
  {
    match e
    case PendingFailed(id) => n.(pending := n.pending - {id})
    case ConnectionEstablished(id, c) =>
      var m := n.(pending := n.pending - {id}, established := n.established[id := c]);
      if c.peer in n.bannedPeers then m.(bannedConnections := n.bannedConnections + {id})
      else m.(calls := n.calls + [EstablishedCall(n, id, c)])
    case ConnectionClosed(id) =>
      var rest := n.established - {id};
      if id in n.bannedConnections then n.(established := rest, bannedConnections := n.bannedConnections - {id})
      else n.(established := rest, calls := n.calls + [ClosedCall(n, id)])
    case ConnectionEvent(id) =>
      if id in n.bannedConnections then n else n.(calls := n.calls + [Event(n.established[id].peer, id)])
    case EndpointChanged(id, endpoint) =>
      var m := n.(established := n.established[id := n.established[id].(endpoint := endpoint)]);
      if id in n.bannedConnections then m else m.(calls := n.calls + [AddressChangeCall(n, id, endpoint)])
  }

  function EstablishedCall(n: Net, id: ConnectionId, c: Connection): Call {
    Established(c.peer, id, c.endpoint, |OfPeer(n.established, c.peer) - n.bannedConnections|)
  }

  function ClosedCall(n: Net, id: ConnectionId): Call
    requires id in n.established
  {
    var c := n.established[id];
    Closed(c.peer, id, c.endpoint, |OfPeer(n.established - {id}, c.peer) - n.bannedConnections|)
  }

  function AddressChangeCall(n: Net, id: ConnectionId, endpoint: Endpoint): Call
    requires id in n.established
  {
    AddressChange(n.established[id].peer, id, n.established[id].endpoint, endpoint)
  }

  datatype Step =
    | Connect
    | Ban(peer: PeerId)
    | Unban(peer: PeerId)
    | Pool(event: PoolEvent)

  predicate Can(n: Net, s: Step) {
    s.Pool? ==> PoolCan(n, s.event)
  }

  function Next(n: Net, s: Step): Net
    requires Can(n, s)
  {
    match s
    case Connect => n.(nextId := n.nextId + 1, pending := n.pending + {n.nextId})
    case Ban(p) => n.(bannedPeers := n.bannedPeers + {p})
    case Unban(p) => n.(bannedPeers := n.bannedPeers - {p})
    case Pool(e) => OnPool(n, e)
  }

  const INIT := Net(0, {}, map[], {}, {}, [])

  // ------------------------------------------------------------- a faithful record

  /** The connections that, going by the callbacks alone, are open. */
  function Open(calls: seq<Call>): map<ConnectionId, Connection> {
    if calls == [] then map[]
    else Noting(Open(calls[..|calls| - 1]), calls[|calls| - 1])
  }

  function Noting(open: map<ConnectionId, Connection>, call: Call): map<ConnectionId, Connection> {
    match call
    case Established(p, c, e, _) => open[c := Connection(p, e)]
    case Closed(_, c, _, _) => open - {c}
    case Event(_, _) => open
    case AddressChange(p, c, _, e) => open[c := Connection(p, e)]
  }

  /** A callback that is right in view of the earlier ones. */
  ghost predicate Right(calls: seq<Call>, call: Call) {
    var open := Open(calls);
    if call.Established? then
      (forall x | x in calls :: x.id != call.id) && call.other == |OfPeer(open, call.peer)|
    else
      && call.id in open && open[call.id].peer == call.peer
      && (call.Closed? ==> && open[call.id].endpoint == call.endpoint
                           && call.remaining == |OfPeer(open - {call.id}, call.peer)|)
      && (call.AddressChange? ==> open[call.id].endpoint == call.previous)
  }

  ghost predicate Faithful(calls: seq<Call>) {
    calls == [] || (Faithful(calls[..|calls| - 1]) && Right(calls[..|calls| - 1], calls[|calls| - 1]))
  }

  ghost predicate Inv(n: Net) {
    && (forall c | c in n.pending || c in n.established :: c < n.nextId)
    && n.pending !! n.established.Keys
    && (forall x | x in n.calls :: x.id < n.nextId && x.id !in n.pending)
    && n.bannedConnections <= n.established.Keys
    && Open(n.calls) == n.established - n.bannedConnections
    && Faithful(n.calls)
  }

  lemma Snoc(calls: seq<Call>, call: Call)
    ensures (calls + [call])[..|calls|] == calls
    ensures Faithful(calls + [call]) <==> Faithful(calls) && Right(calls, call)
    ensures Open(calls + [call]) == Noting(Open(calls), call)
  {
    assert (calls + [call])[..|calls|] == calls;
  }

  lemma OfPeerMinus(conns: map<ConnectionId, Connection>, hidden: set<ConnectionId>, p: PeerId)
    ensures OfPeer(conns - hidden, p) == OfPeer(conns, p) - hidden
  {
  }

  lemma OfPeerPlus(conns: map<ConnectionId, Connection>, id: ConnectionId, c: Connection, p: PeerId)
    requires id !in conns
    ensures OfPeer(conns[id := c], p) == OfPeer(conns, p) + (if c.peer == p then {id} else {})
    ensures id !in OfPeer(conns, p)
  {
  }

  lemma OfPeerMoved(conns: map<ConnectionId, Connection>, id: ConnectionId, c: Connection, p: PeerId)
    requires id in conns && conns[id].peer == c.peer
    ensures OfPeer(conns[id := c], p) == OfPeer(conns, p)
  {
  }

  lemma EntryAdded(conns: map<ConnectionId, Connection>, hidden: set<ConnectionId>, id: ConnectionId, c: Connection)
    ensures id !in conns ==> conns[id := c] - (hidden + {id}) == conns - hidden
    ensures id !in hidden ==> conns[id := c] - hidden == (conns - hidden)[id := c]
    ensures id in hidden ==> conns[id := c] - hidden == conns - hidden
  {
  }

  lemma WithheldKeepsInv(n: Net, id: ConnectionId, c: Connection)
    requires Inv(n) && id in n.pending && c.peer in n.bannedPeers
    ensures Inv(OnPool(n, ConnectionEstablished(id, c)))
  {
    EntryAdded(n.established, n.bannedConnections, id, c);
  }

  lemma EstablishedKeepsInv(n: Net, id: ConnectionId, c: Connection)
    requires Inv(n) && id in n.pending && c.peer !in n.bannedPeers
    ensures Inv(OnPool(n, ConnectionEstablished(id, c)))
  {
    EntryAdded(n.established, n.bannedConnections, id, c);
    OfPeerMinus(n.established, n.bannedConnections, c.peer);
    Snoc(n.calls, EstablishedCall(n, id, c));
  }

  lemma EntryRemoved(conns: map<ConnectionId, Connection>, hidden: set<ConnectionId>, id: ConnectionId)
    ensures (conns - {id}) - hidden == (conns - hidden) - {id}
    ensures id in hidden ==> (conns - {id}) - (hidden - {id}) == conns - hidden
  {
  }

  lemma WithheldCloseKeepsInv(n: Net, id: ConnectionId)
    requires Inv(n) && id in n.established && id in n.bannedConnections
    ensures Inv(OnPool(n, ConnectionClosed(id)))
  {
    EntryRemoved(n.established, n.bannedConnections, id);
  }

  lemma ClosedKeepsInv(n: Net, id: ConnectionId)
    requires Inv(n) && id in n.established && id !in n.bannedConnections
    ensures Inv(OnPool(n, ConnectionClosed(id)))
  {
    EntryRemoved(n.established, n.bannedConnections, id);
    OfPeerMinus(n.established - {id}, n.bannedConnections, n.established[id].peer);
    Snoc(n.calls, ClosedCall(n, id));
  }

  lemma MovedKeepsInv(n: Net, id: ConnectionId, endpoint: Endpoint)
    requires Inv(n) && id in n.established
    ensures Inv(OnPool(n, EndpointChanged(id, endpoint)))
  {
    var c := n.established[id].(endpoint := endpoint);
    EntryAdded(n.established, n.bannedConnections, id, c);
    if id !in n.bannedConnections {
      Snoc(n.calls, AddressChangeCall(n, id, endpoint));
    }
  }

  /** Every step keeps the behaviour's picture in agreement with the pool. */
  lemma StepKeepsInv(n: Net, s: Step)
    requires Inv(n) && Can(n, s)
    ensures Inv(Next(n, s))
  {
    match s
    case Pool(ConnectionEstablished(id, c)) =>
      if c.peer in n.bannedPeers {
        WithheldKeepsInv(n, id, c);
      } else {
        EstablishedKeepsInv(n, id, c);
      }
    case Pool(ConnectionClosed(id)) =>
      if id in n.bannedConnections {
        WithheldCloseKeepsInv(n, id);
      } else {
        ClosedKeepsInv(n, id);
      }
    case Pool(ConnectionEvent(id)) => Snoc(n.calls, Event(n.established[id].peer, id));
    case Pool(EndpointChanged(id, endpoint)) => MovedKeepsInv(n, id, endpoint);
    case _ =>
  }

  // ------------------------------------------------------------------------ runs

  ghost predicate IsRun(run: seq<Net>, steps: seq<Step>) {
    && |run| == |steps| + 1 && run[0] == INIT
    && forall i {:trigger steps[i]} | 0 <= i < |steps| :: Can(run[i], steps[i]) && run[i + 1] == Next(run[i], steps[i])
  }

  lemma {:induction false} RunKeepsInv(run: seq<Net>, steps: seq<Step>, k: nat)
    requires IsRun(run, steps) && k < |run|
    ensures Inv(run[k])
  {
    if k > 0 {
      RunKeepsInv(run, steps, k - 1);
      StepKeepsInv(run[k - 1], steps[k - 1]);
    }
  }

  /** In every run the connections reported and not yet reported closed are the pool's
      established ones, less the banned ones, which are established too. */
  lemma ReportedAreEstablishedLessBanned(run: seq<Net>, steps: seq<Step>, k: nat)
    requires IsRun(run, steps) && k < |run|
    ensures Open(run[k].calls) == run[k].established - run[k].bannedConnections
    ensures run[k].bannedConnections <= run[k].established.Keys
  {
    RunKeepsInv(run, steps, k);
  }

  /** An identifier taken from the counter does not come back as another connection. */
  lemma {:induction false} GoneForGood(run: seq<Net>, steps: seq<Step>, i: nat, j: nat, c: ConnectionId)
    requires IsRun(run, steps) && i <= j < |run|
    requires c < run[i].nextId && c !in run[i].pending && c !in run[i].established
    ensures c < run[j].nextId && c !in run[j].pending && c !in run[j].established
  {
    if i < j {
      GoneForGood(run, steps, i, j - 1, c);
      assert run[j] == Next(run[j - 1], steps[j - 1]);
    }
  }

  lemma StepKeepsStatus(n: Net, s: Step, c: ConnectionId)
    requires Can(n, s) && c in n.established && c < n.nextId && n.pending !! n.established.Keys
    ensures var m := Next(n, s);
            if c in m.established then
              (c in m.bannedConnections <==> c in n.bannedConnections) && m.established[c].peer == n.established[c].peer
            else
              c < m.nextId && c !in m.pending
  {
  }

  /** Whatever is banned or unbanned meanwhile, whether a connection is reported to the
      behaviour, and as whose, is settled for its life. */
  lemma {:induction false} StatusIsSettled(run: seq<Net>, steps: seq<Step>, i: nat, j: nat, c: ConnectionId)
    requires IsRun(run, steps) && i <= j < |run|
    requires c in run[i].established && c in run[j].established
    ensures c in run[i].bannedConnections <==> c in run[j].bannedConnections
    ensures run[i].established[c].peer == run[j].established[c].peer
    decreases j - i
  {
    if i < j {
      RunKeepsInv(run, steps, i);
      StepKeepsStatus(run[i], steps[i], c);
      if c in run[i + 1].established {
        StatusIsSettled(run, steps, i + 1, j, c);
      } else {
        GoneForGood(run, steps, i + 1, j, c);
      }
    }
  }

  // ------------------------------------------------------------------- pairing

  lemma {:induction false} FaithfulPrefix(calls: seq<Call>, i: nat)
    requires Faithful(calls) && i <= |calls|
    ensures Faithful(calls[..i])
    ensures i < |calls| ==> Right(calls[..i], calls[i])
  {
    var n := |calls| - 1;
    if i == |calls| {
      assert calls[..i] == calls;
    } else if i < n {
      FaithfulPrefix(calls[..n], i);
      assert calls[..n][..i] == calls[..i];
    }
  }

  lemma TakeOneMore(calls: seq<Call>, k: nat)
    requires k < |calls|
    ensures calls[..k + 1] == calls[..k] + [calls[k]]
  {
  }

  lemma {:induction false} OpenWasEstablished(calls: seq<Call>, c: ConnectionId) returns (j: nat)
    requires Faithful(calls) && c in Open(calls)
    ensures j < |calls| && calls[j].Established? && calls[j].id == c && calls[j].peer == Open(calls)[c].peer
  {
    var n := |calls| - 1;
    if calls[n].Established? && calls[n].id == c {
      return n;
    }
    j := OpenWasEstablished(calls[..n], c);
  }

  /** Once mentioned and not open, a connection is not opened again. */
  lemma {:induction false} StaysClosed(calls: seq<Call>, i: nat, k: nat)
    requires Faithful(calls) && i < k <= |calls| && calls[i].id !in Open(calls[..i + 1])
    ensures calls[i].id !in Open(calls[..k])
  {
    if i + 1 < k {
      StaysClosed(calls, i, k - 1);
      FaithfulPrefix(calls, k - 1);
      TakeOneMore(calls, k - 1);
      Snoc(calls[..k - 1], calls[k - 1]);
      assert calls[i] == calls[..k - 1][i];
      NotReopened(calls[..k - 1], calls[k - 1], calls[i]);
    }
  }

  lemma NotReopened(calls: seq<Call>, call: Call, x: Call)
    requires Right(calls, call) && x in calls && x.id !in Open(calls)
    ensures x.id !in Noting(Open(calls), call)
  {
  }

  /** Of two reports for the same connection the later one is not of its establishment,
      and the earlier one is not of its closing. */
  lemma ReportsInOrder(calls: seq<Call>, i: nat, k: nat)
    requires Faithful(calls) && i < k < |calls| && calls[i].id == calls[k].id
    ensures !calls[k].Established? && !calls[i].Closed?
  {
    FaithfulPrefix(calls, k);
    assert calls[i] in calls[..k];
    if calls[i].Closed? {
      FaithfulPrefix(calls, i);
      TakeOneMore(calls, i);
      Snoc(calls[..i], calls[i]);
      StaysClosed(calls, i, k);
    }
  }

  /** The one earlier report of the establishment, and no second one of the closing. */
  ghost predicate Paired(calls: seq<Call>, i: nat)
    requires i < |calls|
  {
    && (exists j | 0 <= j < i :: calls[j].Established? && calls[j].peer == calls[i].peer && calls[j].id == calls[i].id)
    && (forall j, k | 0 <= j < |calls| && 0 <= k < |calls| && calls[j].Established? && calls[k].Established?
                   && calls[j].id == calls[i].id == calls[k].id :: j == k)
    && (forall j | 0 <= j < |calls| && calls[j].Closed? && calls[j].id == calls[i].id :: j == i)
  }

  lemma FaithfulIsPaired(calls: seq<Call>, i: nat)
    requires Faithful(calls) && i < |calls| && calls[i].Closed?
    ensures Paired(calls, i)
  {
    FaithfulPrefix(calls, i);
    var j := OpenWasEstablished(calls[..i], calls[i].id);
    assert calls[j] == calls[..i][j];
    forall j, k | 0 <= j < k < |calls| && calls[j].id == calls[k].id
      ensures !calls[k].Established? && !calls[j].Closed?
    {
      ReportsInOrder(calls, j, k);
    }
  }

  /** For every report of a closing there is exactly one of an establishment, earlier and
      of the same peer and connection; and there is no second report of the closing. */
  lemma ClosedIsPaired(run: seq<Net>, steps: seq<Step>, n: nat, i: nat)
    requires IsRun(run, steps) && n < |run| && i < |run[n].calls| && run[n].calls[i].Closed?
    ensures Paired(run[n].calls, i)
  {
    RunKeepsInv(run, steps, n);
    FaithfulIsPaired(run[n].calls, i);
  }

  // ------------------------------------------------------------------- the oracle

  /** The numbers reported with the establishments for a peer, last first. */
  function Recorded(calls: seq<Call>, p: PeerId): seq<nat> {
    if calls == [] then []
    else
      var last := calls[|calls| - 1];
      (if last.Established? && last.peer == p then [last.other] else []) + Recorded(calls[..|calls| - 1], p)
  }

  /** The assertions of the call-tracing behaviour about a number it is given. */
  predicate CountPasses(recorded: seq<nat>, n: nat) {
    var taken := if n < |recorded| then recorded[..n] else recorded;
    if taken != [] then (taken[0] < n ==> taken[0] == n - 1) && |taken| - 1 == n - 1 else n == 0
  }

  /** In other words: as many numbers must have been recorded, the last one not below by more
      than one. */
  lemma CountPassesIff(recorded: seq<nat>, n: nat)
    ensures CountPasses(recorded, n) <==> n == 0 || (|recorded| >= n && recorded[0] >= n - 1)
  {
  }

  predicate WasEstablished(calls: seq<Call>, p: PeerId, c: ConnectionId) {
    exists x | x in calls :: x.Established? && x.peer == p && x.id == c
  }

  predicate WasEstablishedAt(calls: seq<Call>, p: PeerId, c: ConnectionId, e: Endpoint) {
    exists x | x in calls :: x.Established? && x.peer == p && x.id == c && x.endpoint == e
  }

  predicate WasClosed(calls: seq<Call>, p: PeerId, c: ConnectionId) {
    exists x | x in calls :: x.Closed? && x.peer == p && x.id == c
  }

  /** What the call-tracing behaviour asserts of a callback, given the earlier ones. */
  predicate OraclePasses(calls: seq<Call>, call: Call) {
    match call
    case Established(p, _, _, other) => CountPasses(Recorded(calls, p), other)
    case Closed(p, c, e, remaining) => CountPasses(Recorded(calls, p), remaining) && WasEstablishedAt(calls, p, c, e)
    case Event(p, c) => WasEstablished(calls, p, c) && !WasClosed(calls, p, c)
    case AddressChange(_, _, _, _) => true
  }

  function NumEstablished(calls: seq<Call>, p: PeerId): nat {
    if calls == [] then 0
    else
      var last := calls[|calls| - 1];
      NumEstablished(calls[..|calls| - 1], p) + (if last.Established? && last.peer == p then 1 else 0)
  }

  function NumClosed(calls: seq<Call>, p: PeerId): nat {
    if calls == [] then 0
    else
      var last := calls[|calls| - 1];
      NumClosed(calls[..|calls| - 1], p) + (if last.Closed? && last.peer == p then 1 else 0)
  }

  lemma {:induction false} OpenIsMentioned(calls: seq<Call>, c: ConnectionId)
    requires forall x | x in calls :: x.id != c
    ensures c !in Open(calls)
  {
    if calls != [] {
      assert calls[|calls| - 1] in calls;
      OpenIsMentioned(calls[..|calls| - 1], c);
    }
  }

  function Change(call: Call): int {
    if call.Established? then 1 else if call.Closed? then -1 else 0
  }

  /** How one right callback changes the connections open for a peer. */
  lemma NotingOfPeer(calls: seq<Call>, call: Call, p: PeerId)
    requires Right(calls, call)
    ensures var before, after := OfPeer(Open(calls), p), OfPeer(Noting(Open(calls), call), p);
            |after| == |before| + (if call.peer != p then 0 else Change(call))
  {
    var before, after := OfPeer(Open(calls), p), OfPeer(Noting(Open(calls), call), p);
    if call.Established? {
      OpenIsMentioned(calls, call.id);
      OfPeerPlus(Open(calls), call.id, Connection(call.peer, call.endpoint), p);
    } else if call.Closed? {
      OfPeerMinus(Open(calls), {call.id}, p);
      assert call.peer != p ==> call.id !in before;
    } else if call.AddressChange? {
      OfPeerMoved(Open(calls), call.id, Connection(call.peer, call.endpoint), p);
    }
  }

  /** The behaviour's own count of open connections, and how it compares with what was
      last reported to it. */
  lemma {:induction false} OwnCount(calls: seq<Call>, p: PeerId)
    requires Faithful(calls)
    ensures var k, recorded := |OfPeer(Open(calls), p)|, Recorded(calls, p);
            && NumEstablished(calls, p) == NumClosed(calls, p) + k
            && |recorded| == NumEstablished(calls, p)
            && (recorded != [] ==> k <= recorded[0] + 1)
  {
    if calls == [] {
      assert OfPeer(Open(calls), p) == {};
    } else {
      var front, last := calls[..|calls| - 1], calls[|calls| - 1];
      OwnCount(front, p);
      NotingOfPeer(front, last, p);
    }
  }

  /** The endpoint a connection was established at, and the one it has last moved to. */
  function Home(calls: seq<Call>, c: ConnectionId): Option<Endpoint> {
    if calls == [] then None
    else
      var last := calls[|calls| - 1];
      if last.Established? && last.id == c then Some(last.endpoint) else Home(calls[..|calls| - 1], c)
  }

  function LastMove(calls: seq<Call>, c: ConnectionId): Option<Endpoint> {
    if calls == [] then None
    else
      var last := calls[|calls| - 1];
      if last.AddressChange? && last.id == c then Some(last.endpoint) else LastMove(calls[..|calls| - 1], c)
  }

  /** A connection that has not moved, or has moved back. */
  predicate AtHome(calls: seq<Call>, c: ConnectionId) {
    LastMove(calls, c).None? || LastMove(calls, c) == Home(calls, c)
  }

  lemma {:induction false} UnmentionedHasNoMove(calls: seq<Call>, c: ConnectionId)
    requires forall x | x in calls :: x.id != c
    ensures Home(calls, c).None? && LastMove(calls, c).None?
  {
    if calls != [] {
      assert calls[|calls| - 1] in calls;
      UnmentionedHasNoMove(calls[..|calls| - 1], c);
    }
  }

  /** An open connection is where it has last moved to, or else where it was established. */
  lemma {:induction false} OpenWhereLastMoved(calls: seq<Call>, c: ConnectionId)
    requires Faithful(calls) && c in Open(calls)
    ensures Home(calls, c).Some?
    ensures Some(Open(calls)[c].endpoint) == if LastMove(calls, c).Some? then LastMove(calls, c) else Home(calls, c)
  {
    var front, last := calls[..|calls| - 1], calls[|calls| - 1];
    if last.Established? && last.id == c {
      UnmentionedHasNoMove(front, c);
    } else {
      OpenWhereLastMoved(front, c);
    }
  }

  lemma {:induction false} EstablishedAtHome(calls: seq<Call>, x: Call)
    requires Faithful(calls) && x in calls && x.Established?
    ensures Home(calls, x.id) == Some(x.endpoint)
  {
    var front, last := calls[..|calls| - 1], calls[|calls| - 1];
    assert calls == front + [last];
    if x in front {
      EstablishedAtHome(front, x);
    }
  }

  /** The one assertion that compares endpoints. */
  lemma ClosedAtHomeIff(calls: seq<Call>, call: Call)
    requires Faithful(calls) && Right(calls, call) && call.Closed?
    ensures WasEstablishedAt(calls, call.peer, call.id, call.endpoint) <==> AtHome(calls, call.id)
  {
    OpenWhereLastMoved(calls, call.id);
    var j := OpenWasEstablished(calls, call.id);
    EstablishedAtHome(calls, calls[j]);
    assert calls[j] in calls;
    forall x | x in calls && x.Established? && x.id == call.id ensures Home(calls, call.id) == Some(x.endpoint) {
      EstablishedAtHome(calls, x);
    }
  }

  lemma EventPassesOracle(calls: seq<Call>, call: Call)
    requires Faithful(calls) && Right(calls, call) && call.Event?
    ensures OraclePasses(calls, call)
  {
    var j := OpenWasEstablished(calls, call.id);
    assert calls[j] in calls;
    if WasClosed(calls, call.peer, call.id) {
      var x :| x in calls && x.Closed? && x.peer == call.peer && x.id == call.id;
      var i :| 0 <= i < |calls| && calls[i] == x;
      FaithfulPrefix(calls, i);
      TakeOneMore(calls, i);
      Snoc(calls[..i], calls[i]);
      assert calls[..|calls|] == calls;
      StaysClosed(calls, i, |calls|);
    }
  }

  /** A callback that is right passes the oracle, except that a closing passes exactly if the
      connection is where it was established. */
  lemma RightPassesOracleIff(calls: seq<Call>, call: Call)
    requires Faithful(calls) && Right(calls, call)
    ensures OraclePasses(calls, call) <==> (call.Closed? ==> AtHome(calls, call.id))
    ensures call.Closed? ==> && CountPasses(Recorded(calls, call.peer), call.remaining)
                             && WasEstablished(calls, call.peer, call.id)
  {
    OwnCount(calls, call.peer);
    match call
    case Established(_, _, _, _) =>
    case Closed(_, _, _, _) =>
      NotingOfPeer(calls, call, call.peer);
      ClosedAtHomeIff(calls, call);
      var j := OpenWasEstablished(calls, call.id);
      assert calls[j] in calls;
    case Event(_, _) => EventPassesOracle(calls, call);
    case AddressChange(_, _, _, _) =>
  }

  /** The callback passes the oracle, except that a closing away from home fails the comparison
      of endpoints and nothing else, and comes with the behaviour's own count of other
      connections. */
  ghost predicate Consistent(calls: seq<Call>, i: nat)
    requires i < |calls|
  {
    var before, p := calls[..i], calls[i].peer;
    && (OraclePasses(before, calls[i]) <==> (calls[i].Closed? ==> AtHome(before, calls[i].id)))
    && (calls[i].Closed? ==> && CountPasses(Recorded(before, p), calls[i].remaining)
                             && WasEstablished(before, p, calls[i].id))
    && NumClosed(before, p) <= NumEstablished(before, p)
    && (calls[i].Established? ==> calls[i].other == NumEstablished(before, p) - NumClosed(before, p))
    && (calls[i].Closed? ==> calls[i].remaining == NumEstablished(before, p) - NumClosed(before, p) - 1)
  }

  lemma FaithfulIsConsistent(calls: seq<Call>, i: nat)
    requires Faithful(calls) && i < |calls|
    ensures Consistent(calls, i)
  {
    FaithfulPrefix(calls, i);
    RightPassesOracleIff(calls[..i], calls[i]);
    OwnCount(calls[..i], calls[i].peer);
    if calls[i].Closed? {
      NotingOfPeer(calls[..i], calls[i], calls[i].peer);
    }
  }

  /** In every run an assertion of the call-tracing behaviour fails exactly where a connection
      is closed at another endpoint than it was established at, and each number it is given
      is its own count of the other open connections of that peer. */
  lemma OracleFiresIff(run: seq<Net>, steps: seq<Step>, n: nat, i: nat)
    requires IsRun(run, steps) && n < |run| && i < |run[n].calls|
    ensures Consistent(run[n].calls, i)
  {
    RunKeepsInv(run, steps, n);
    FaithfulIsConsistent(run[n].calls, i);
  }

  /** A connection that moves and is then closed. */
  lemma MovingFires() returns (run: seq<Net>, steps: seq<Step>)
    ensures IsRun(run, steps) && |run| == 5
    ensures var calls := run[4].calls; |calls| == 3 && !OraclePasses(calls[..2], calls[2])
  {
    var c := Connection("peer", "here");
    steps := [Connect, Pool(ConnectionEstablished(0, c)), Pool(EndpointChanged(0, "there")), Pool(ConnectionClosed(0))];
    var n1 := Next(INIT, steps[0]);
    var n2 := Next(n1, steps[1]);
    var n3 := Next(n2, steps[2]);
    var n4 := Next(n3, steps[3]);
    run := [INIT, n1, n2, n3, n4];
    assert IsRun(run, steps);
    var calls := run[4].calls;
    assert |calls| == 3 && calls[2].Closed? && calls[2].endpoint == "there";
    assert calls[0].Established? && calls[0].endpoint == "here" && calls[1].AddressChange?;
  }
}
