/** The hub of the in-memory transport: who holds which port, and what becomes of dials. */
module MemoryHub {
  import Seqs
  import opened Wrappers

  type U64 = n: int | 0 <= n < 0x1_0000_0000_0000_0000

  type Port = n: U64 | 0 < n witness 1

  type Id = nat

  datatype Protocol = Memory(port: U64) | P2p | OtherProtocol

  function ParseMemoryAddr(addr: seq<Protocol>): Option<U64> {
    if addr != [] && addr[0].Memory? && (|addr| == 1 || addr[1].P2p?) then Some(addr[0].port) else None
  }

  /** A connection handed to a listener, with the dialer's port. */
  datatype Conn = Conn(id: Id, port: Port)

  /** Values of the transport. A dial future holds its port until it returns its end of the
      connection, which then holds it, under the same identity; the future is then spent. */
  datatype Object =
    | Listener(port: Port, tell: bool)
    | Dial(port: Port, target: Id, toSend: bool)
    | Chan(port: Port)
    | Spent

  datatype Event = Sent(channel: Id, conn: Conn) | Taken(channel: Id, conn: Conn)

  /** The hub maps ports to channels, named by the value they were made for. Only a listener
      keeps the receiving end, and with it the queue. */
  datatype World = World(
    hub: map<Port, Id>,
    objects: map<Id, Object>,
    queues: map<Id, seq<Conn>>,
    next: Id,
    log: seq<Event>)

  /** `AlreadyInUse` is never raised: an occupied port is reported as unreachable. */
  datatype TransportError = MultiaddrNotSupported | Unreachable | AlreadyInUse

  datatype DialPoll = DialPending | DialDone(channel: Object) | DialFailed(error: TransportError)

  datatype ListenerPoll = ListenerPending | NewAddress(port: Port) | Incoming(conn: Conn)

  /** How a poll of a dial finds its sender, if there still is a receiver. */
  datatype SendPoll = SenderFull | SenderOk | LostMeanwhile

  datatype Action =
    | ListenOn(addr: seq<Protocol>, random: Port)
    | DialTo(addr: seq<Protocol>, random: Port)
    | PollDial(id: Id, poll: SendPoll)
    | PollListener(id: Id)
    | Drop(id: Id)

  /** The address names a port that is registered. */
  predicate Found(hub: map<Port, Id>, addr: seq<Protocol>) {
    var port := ParseMemoryAddr(addr);
    port.Some? && port.value != 0 && port.value in hub
  }

  /** Random ports are drawn only where one is needed, and are unoccupied. */
  predicate Can(w: World, a: Action) {
    match a
    case ListenOn(addr, random) => ParseMemoryAddr(addr) == Some(0) ==> random !in w.hub
    case DialTo(addr, random) => Found(w.hub, addr) ==> random !in w.hub
    case PollDial(id, _) => id in w.objects && w.objects[id].Dial? && w.objects[id].toSend
    case PollListener(id) => id in w.objects && w.objects[id].Listener?
    case Drop(id) => id in w.objects
  }

  /** The port asked for, or a random unoccupied one for zero. */
  function Choose(port: U64, random: Port): Port {
    if port == 0 then random else port
  }

  function Listening(w: World, addr: seq<Protocol>, random: Port): World {
    var port := ParseMemoryAddr(addr);
    if port.None? then w
    else
      var p := Choose(port.value, random);
      if p in w.hub then w
      else w.(hub := w.hub[p := w.next],
              objects := w.objects[w.next := Listener(p, true)],
              queues := w.queues[w.next := []],
              next := w.next + 1)
  }

  function Dialing(w: World, addr: seq<Protocol>, random: Port): World {
    if !Found(w.hub, addr) then w
    else w.(hub := w.hub[random := w.next],
            objects := w.objects[w.next := Dial(random, w.hub[ParseMemoryAddr(addr).value], true)],
            next := w.next + 1)
  }

  function DialPolled(w: World, id: Id, poll: SendPoll): World
    requires id in w.objects && w.objects[id].Dial?
  {
    var d := w.objects[id];
    if d.target !in w.queues then w
    else match poll
      case SenderFull => w
      case LostMeanwhile => w.(objects := w.objects[id := d.(toSend := false)])
      case SenderOk =>
        w.(objects := w.objects[id := Chan(d.port)][w.next := Spent],
           queues := w.queues[d.target := w.queues[d.target] + [Conn(id, d.port)]],
           next := w.next + 1,
           log := w.log + [Sent(d.target, Conn(id, d.port))])
  }

  function ListenerPolled(w: World, id: Id): World
    requires id in w.objects && w.objects[id].Listener? && id in w.queues
  {
    var l, q := w.objects[id], w.queues[id];
    if l.tell then w.(objects := w.objects[id := l.(tell := false)])
    else if q == [] then w
    else w.(queues := w.queues[id := q[1..]], log := w.log + [Taken(id, q[0])])
  }

  /** Dropping a value gives back its port, if it still holds one. */
  function Dropped(w: World, id: Id): World
    requires id in w.objects
  {
    var o := w.objects[id];
    w.(hub := if o.Spent? then w.hub else w.hub - {o.port},
       objects := w.objects - {id},
       queues := w.queues - {id})
  }

  // --------------------------------------------------------------- port ownership

  /** The hub and the live values refer to each other. */
  ghost predicate Owned(w: World) {
    && (forall k | k in w.objects && !w.objects[k].Spent? ::
          w.objects[k].port in w.hub && w.hub[w.objects[k].port] == k)
    && (forall p | p in w.hub :: w.hub[p] in w.objects && !w.objects[w.hub[p]].Spent? && w.objects[w.hub[p]].port == p)
  }

  ghost predicate Fresh(w: World) {
    && (forall k | k in w.objects :: k < w.next)
    && (forall e | e in w.log :: e.channel < w.next)
  }

  function SentTo(log: seq<Event>, c: Id): seq<Conn> {
    if log == [] then []
    else
      var front, last := SentTo(log[..|log| - 1], c), log[|log| - 1];
      if last.Sent? && last.channel == c then front + [last.conn] else front
  }

  function TakenFrom(log: seq<Event>, c: Id): seq<Conn> {
    if log == [] then []
    else
      var front, last := TakenFrom(log[..|log| - 1], c), log[|log| - 1];
      if last.Taken? && last.channel == c then front + [last.conn] else front
  }

  /** A live listener's queue holds, in order, what was sent and not yet taken. */
  ghost predicate Queued(w: World) {
    && (forall c :: c in w.queues <==> c in w.objects && w.objects[c].Listener?)
    && (forall c | c in w.queues :: SentTo(w.log, c) == TakenFrom(w.log, c) + w.queues[c])
  }

  ghost predicate Inv(w: World) {
    Owned(w) && Fresh(w) && Queued(w)
  }

  function Next(w: World, a: Action): World
    requires Inv(w) && Can(w, a)
  {
    match a
    case ListenOn(addr, random) => Listening(w, addr, random)
    case DialTo(addr, random) => Dialing(w, addr, random)
    case PollDial(id, poll) => DialPolled(w, id, poll)
    case PollListener(id) => ListenerPolled(w, id)
    case Drop(id) => Dropped(w, id)
  }

  lemma LogSnoc(log: seq<Event>, e: Event, c: Id)
    ensures SentTo(log + [e], c) == if e.Sent? && e.channel == c then SentTo(log, c) + [e.conn] else SentTo(log, c)
    ensures TakenFrom(log + [e], c)
         == if e.Taken? && e.channel == c then TakenFrom(log, c) + [e.conn] else TakenFrom(log, c)
  {
    assert (log + [e])[..|log|] == log;
  }

  lemma {:induction false} NothingLogged(log: seq<Event>, c: Id)
    requires forall e | e in log :: e.channel != c
    ensures SentTo(log, c) == [] == TakenFrom(log, c)
  {
    if log != [] {
      assert log[|log| - 1] in log;
      NothingLogged(log[..|log| - 1], c);
    }
  }

  lemma ListenKeepsInv(w: World, addr: seq<Protocol>, random: Port)
    requires Inv(w)
    ensures Inv(Listening(w, addr, random))
  {
    NothingLogged(w.log, w.next);
  }

  lemma DialKeepsInv(w: World, addr: seq<Protocol>, random: Port)
    requires Inv(w) && (Found(w.hub, addr) ==> random !in w.hub)
    ensures Inv(Dialing(w, addr, random))
  {
  }

  lemma SentKeepsQueued(w: World, id: Id)
    requires Inv(w) && id in w.objects && w.objects[id].Dial? && w.objects[id].target in w.queues
    ensures Queued(DialPolled(w, id, SenderOk))
  {
    var v := DialPolled(w, id, SenderOk);
    forall c | c in v.queues ensures SentTo(v.log, c) == TakenFrom(v.log, c) + v.queues[c] {
      assert SentTo(w.log, c) == TakenFrom(w.log, c) + w.queues[c];
      SentIsQueued(w, id, c);
    }
  }

  lemma SentIsQueued(w: World, id: Id, c: Id)
    requires id in w.objects && w.objects[id].Dial? && w.objects[id].target in w.queues && c in w.queues
    requires SentTo(w.log, c) == TakenFrom(w.log, c) + w.queues[c]
    ensures var v := DialPolled(w, id, SenderOk); SentTo(v.log, c) == TakenFrom(v.log, c) + v.queues[c]
  {
    var d := w.objects[id];
    LogSnoc(w.log, Sent(d.target, Conn(id, d.port)), c);
    Seqs.Assoc(TakenFrom(w.log, c), w.queues[c], [Conn(id, d.port)]);
  }

  lemma SentKeepsOwned(w: World, id: Id)
    requires Inv(w) && id in w.objects && w.objects[id].Dial? && w.objects[id].target in w.queues
    ensures var v := DialPolled(w, id, SenderOk); Owned(v) && Fresh(v)
  {
  }

  lemma LostKeepsInv(w: World, id: Id)
    requires Inv(w) && id in w.objects && w.objects[id].Dial? && w.objects[id].target in w.queues
    ensures Inv(DialPolled(w, id, LostMeanwhile))
  {
  }

  lemma PollDialKeepsInv(w: World, id: Id, poll: SendPoll)
    requires Inv(w) && id in w.objects && w.objects[id].Dial?
    ensures Inv(DialPolled(w, id, poll))
  {
    if w.objects[id].target in w.queues {
      match poll
      case SenderFull =>
      case LostMeanwhile => LostKeepsInv(w, id);
      case SenderOk =>
        SentKeepsOwned(w, id);
        SentKeepsQueued(w, id);
    }
  }

  lemma PollListenerKeepsInv(w: World, id: Id)
    requires Inv(w) && id in w.objects && w.objects[id].Listener?
    ensures Inv(ListenerPolled(w, id))
  {
    var l, q, v := w.objects[id], w.queues[id], ListenerPolled(w, id);
    if !l.tell && q != [] {
      forall c | c in v.queues ensures SentTo(v.log, c) == TakenFrom(v.log, c) + v.queues[c] {
        LogSnoc(w.log, Taken(id, q[0]), c);
      }
    }
  }

  lemma DropKeepsInv(w: World, id: Id)
    requires Inv(w) && id in w.objects
    ensures Inv(Dropped(w, id))
  {
  }

  lemma ActionKeepsInv(w: World, a: Action)
    requires Inv(w) && Can(w, a)
    ensures Inv(Next(w, a))
  {
    match a
    case ListenOn(addr, random) => ListenKeepsInv(w, addr, random);
    case DialTo(addr, random) => DialKeepsInv(w, addr, random);
    case PollDial(id, poll) => PollDialKeepsInv(w, id, poll);
    case PollListener(id) => PollListenerKeepsInv(w, id);
    case Drop(id) => DropKeepsInv(w, id);
  }

  // ------------------------------------------------------------------------ runs

  const START := World(map[], map[], map[], 0, [])

  /** Actions are defined under the invariant, which every one of them keeps. */
  ghost predicate IsRun(run: seq<World>, actions: seq<Action>) {
    && |run| == |actions| + 1 && run[0] == START
    && forall i {:trigger actions[i]} | 0 <= i < |actions| ::
         Inv(run[i]) ==> Can(run[i], actions[i]) && run[i + 1] == Next(run[i], actions[i])
  }

  lemma {:induction false} RunKeepsInv(run: seq<World>, actions: seq<Action>, k: nat)
    requires IsRun(run, actions) && k < |run|
    ensures Inv(run[k])
  {
    if k > 0 {
      RunKeepsInv(run, actions, k - 1);
      ActionKeepsInv(run[k - 1], actions[k - 1]);
    }
  }

  ghost predicate HoldsPort(w: World, k: Id, p: Port) {
    k in w.objects && !w.objects[k].Spent? && w.objects[k].port == p
  }

  /** In every run the occupied ports are exactly those of live listeners, unfinished dials
      and dialers' channels, each of exactly one. */
  lemma PortsHaveOneHolder(run: seq<World>, actions: seq<Action>, n: nat)
    requires IsRun(run, actions) && n < |run|
    ensures forall p :: p in run[n].hub <==> exists k :: HoldsPort(run[n], k, p)
    ensures forall j, k, p | HoldsPort(run[n], j, p) && HoldsPort(run[n], k, p) :: j == k
  {
    RunKeepsInv(run, actions, n);
    var w := run[n];
    forall p | p in w.hub ensures exists k :: HoldsPort(w, k, p) {
      assert HoldsPort(w, w.hub[p], p);
    }
  }

  /** Whatever is dropped finds its port registered; a live listener finds its own sender in
      the hub, so that its channel does not end. */
  lemma UnregisterFindsPort(run: seq<World>, actions: seq<Action>, n: nat, k: Id)
    requires IsRun(run, actions) && n < |run| && k in run[n].objects && !run[n].objects[k].Spent?
    ensures var port := run[n].objects[k].port;
            port in run[n].hub && run[n].hub[port] == k
  {
    RunKeepsInv(run, actions, n);
  }

  /** A live listener has taken a prefix of the connections sent to it, in their order. */
  lemma ListenersTakeInOrder(run: seq<World>, actions: seq<Action>, n: nat, k: Id)
    requires IsRun(run, actions) && n < |run| && k in run[n].objects && run[n].objects[k].Listener?
    ensures TakenFrom(run[n].log, k) <= SentTo(run[n].log, k)
    ensures k in run[n].queues && run[n].queues[k] == SentTo(run[n].log, k)[|TakenFrom(run[n].log, k)|..]
  {
    RunKeepsInv(run, actions, n);
  }

  lemma NoNewQueue(w: World, a: Action, c: Id)
    requires Inv(w) && Can(w, a) && c < w.next && c !in w.queues
    ensures c < Next(w, a).next && c !in Next(w, a).queues
  {
  }

  lemma {:induction false} QueuesDoNotReturn(run: seq<World>, actions: seq<Action>, i: nat, j: nat, c: Id)
    requires IsRun(run, actions) && i <= j < |run| && c < run[i].next && c !in run[i].queues
    ensures c < run[j].next && c !in run[j].queues
  {
    if i < j {
      QueuesDoNotReturn(run, actions, i, j - 1, c);
      RunKeepsInv(run, actions, j - 1);
      NoNewQueue(run[j - 1], actions[j - 1], c);
    }
  }

  /** A dial that found an ephemeral port, although that is registered, never completes. */
  lemma EphemeralPortsAreUnreachable(run: seq<World>, actions: seq<Action>, i: nat, j: nat, k: Id, p: Port)
    requires IsRun(run, actions) && i <= j < |run| && HoldsPort(run[i], k, p) && !run[i].objects[k].Listener?
    ensures p in run[i].hub && run[i].hub[p] == k
    ensures forall id, poll | id in run[j].objects && run[j].objects[id].Dial? && run[j].objects[id].target == k ::
              DialPolled(run[j], id, poll) == run[j]
  {
    RunKeepsInv(run, actions, i);
    QueuesDoNotReturn(run, actions, i, j, k);
  }

  // ---------------------------------------------------------------------- the hub

  /** Some draw of the random generator can be used. */
  predicate HasFree(draws: seq<U64>, ports: map<Port, Id>) {
    draws != [] && ((draws[0] != 0 && draws[0] !in ports) || HasFree(draws[1..], ports))
  }

  function FirstFree(draws: seq<U64>, ports: map<Port, Id>): (p: Port)
    requires HasFree(draws, ports)
    ensures p !in ports && p in draws
    ensures exists i :: 0 <= i < |draws| && draws[i] == p && forall j | 0 <= j < i :: draws[j] == 0 || draws[j] in ports
  {
    if draws[0] != 0 && draws[0] !in ports then draws[0] else FirstFree(draws[1..], ports)
  }

  /** What a random draw gives, where one is needed. */
  function Draw(draws: seq<U64>, ports: map<Port, Id>): Port {
    if HasFree(draws, ports) then FirstFree(draws, ports) else 1
  }

  /** The table of ports, shared by all listeners and dialers. */
  class Hub {
    var ports: map<Port, Id>

    constructor ()
      ensures ports == map[]
    {
      ports := map[];
    }

    /** Enters the given port, or for zero the first random one that is neither zero nor
        occupied; refuses a port that is. */
    method RegisterPort(port: U64, channel: Id, draws: seq<U64>) returns (r: Option<Port>)
      requires port == 0 ==> HasFree(draws, ports)
      modifies this
      ensures var p := Choose(port, Draw(draws, old(ports)));
              if p in old(ports) then r.None? && ports == old(ports)
              else r == Some(p) && ports == old(ports)[p := channel]
    {
      var chosen := port;
      if port == 0 {
        var i := 0;
        while draws[i] == 0 || draws[i] in ports
          invariant i < |draws| && HasFree(draws[i..], ports)
          invariant FirstFree(draws[i..], ports) == FirstFree(draws, ports)
          decreases |draws| - i
        {
          assert draws[i..][1..] == draws[i + 1..];
          i := i + 1;
        }
        chosen := draws[i];
      }
      if chosen in ports {
        return None;
      }
      ports := ports[chosen := channel];
      return Some(chosen);
    }

    method UnregisterPort(port: Port) returns (r: Option<Id>)
      modifies this
      ensures r == if port in old(ports) then Some(old(ports)[port]) else None
      ensures ports == old(ports) - {port}
    {
      r := if port in ports then Some(ports[port]) else None;
      ports := ports - {port};
    }

    method Get(port: Port) returns (r: Option<Id>)
      ensures r == if port in ports then Some(ports[port]) else None
    {
      r := if port in ports then Some(ports[port]) else None;
    }
  }

  /** The values of the transport at work on the hub. */
  class Transport {
    const hub: Hub
    var objects: map<Id, Object>
    var queues: map<Id, seq<Conn>>
    var next: Id
    ghost var log: seq<Event>

    ghost function Now(): World
      reads this, hub
    {
      World(hub.ports, objects, queues, next, log)
    }

    ghost predicate Valid()
      reads this, hub
    {
      Inv(Now())
    }

    constructor ()
      ensures Valid() && fresh(hub) && Now() == START
    {
      hub := new Hub();
      objects, queues, next, log := map[], map[], 0, [];
    }

    method ListenOn(addr: seq<Protocol>, draws: seq<U64>) returns (r: Result<Id, TransportError>)
      requires Valid() && (ParseMemoryAddr(addr) == Some(0) ==> HasFree(draws, hub.ports))
      modifies this, hub
      ensures Valid() && Now() == Listening(old(Now()), addr, Draw(draws, old(hub.ports)))
      ensures var port := ParseMemoryAddr(addr);
              r == if port.None? then Err(MultiaddrNotSupported)
                   else if Choose(port.value, Draw(draws, old(hub.ports))) in old(hub.ports) then Err(Unreachable)
                   else Ok(old(next))
    {
      ListenKeepsInv(Now(), addr, Draw(draws, hub.ports));
      var port := ParseMemoryAddr(addr);
      if port.None? {
        return Err(MultiaddrNotSupported);
      }
      var got := hub.RegisterPort(port.value, next, draws);
      if got.None? {
        return Err(Unreachable);
      }
      objects := objects[next := Listener(got.value, true)];
      queues := queues[next := []];
      next := next + 1;
      return Ok(next - 1);
    }

    method DialTo(addr: seq<Protocol>, draws: seq<U64>) returns (r: Result<Id, TransportError>)
      requires Valid() && (Found(hub.ports, addr) ==> HasFree(draws, hub.ports))
      modifies this, hub
      ensures Valid() && Now() == Dialing(old(Now()), addr, Draw(draws, old(hub.ports)))
      ensures r == if ParseMemoryAddr(addr).None? then Err(MultiaddrNotSupported)
                   else if Found(old(hub.ports), addr) then Ok(old(next)) else Err(Unreachable)
    {
      ghost var dialing := Dialing(Now(), addr, Draw(draws, hub.ports));
      DialKeepsInv(Now(), addr, Draw(draws, hub.ports));
      var port := ParseMemoryAddr(addr);
      if port.None? {
        return Err(MultiaddrNotSupported);
      }
      if port.value == 0 {
        return Err(Unreachable);
      }
      var sender := hub.Get(port.value);
      if sender.None? {
        return Err(Unreachable);
      }
      var got := hub.RegisterPort(0, next, draws);
      assert got.Some?;
      objects := objects[next := Dial(got.value, sender.value, true)];
      next := next + 1;
      assert Now() == dialing;
      return Ok(next - 1);
    }

    /** One end of the connection goes to the listener, the other one takes over the port. */
    method HandOver(id: Id)
      requires id in objects && id < next && objects[id].Dial? && objects[id].target in queues
      modifies this
      ensures Now() == DialPolled(old(Now()), id, SenderOk)
      ensures id in objects && objects[id] == Chan(old(objects[id].port))
    {
      var d := objects[id];
      objects := objects[id := Chan(d.port)][next := Spent];
      queues := queues[d.target := queues[d.target] + [Conn(id, d.port)]];
      log := log + [Sent(d.target, Conn(id, d.port))];
      next := next + 1;
    }

    /** The dialer's end of the connection, once the listener's end has been sent. */
    method PollDial(id: Id, poll: SendPoll) returns (r: DialPoll)
      requires Valid() && Can(Now(), Action.PollDial(id, poll))
      modifies this
      ensures Valid() && Now() == DialPolled(old(Now()), id, poll)
      ensures var d := old(objects)[id];
              r == if d.target !in old(queues) || poll.LostMeanwhile? then DialFailed(Unreachable)
                   else if poll.SenderFull? then DialPending
                   else DialDone(Chan(d.port))
      ensures r.DialDone? ==> id in objects && objects[id] == r.channel
    {
      PollDialKeepsInv(Now(), id, poll);
      var d := objects[id];
      if d.target !in queues {
        return DialFailed(Unreachable);
      }
      if poll.SenderFull? {
        return DialPending;
      }
      if poll.LostMeanwhile? {
        objects := objects[id := d.(toSend := false)];
        return DialFailed(Unreachable);
      }
      HandOver(id);
      return DialDone(Chan(d.port));
    }

    method PollListener(id: Id) returns (r: ListenerPoll)
      requires Valid() && Can(Now(), Action.PollListener(id))
      modifies this
      ensures Valid() && Now() == ListenerPolled(old(Now()), id)
      ensures var l := old(objects)[id];
              && (r.NewAddress? <==> l.tell) && (l.tell ==> r.port == l.port)
              && (r.Incoming? <==> !l.tell && id in old(queues) && old(queues)[id] != [])
              && (r.Incoming? ==> r.conn == old(queues)[id][0] && log == old(log) + [Taken(id, r.conn)])
    {
      PollListenerKeepsInv(Now(), id);
      var l := objects[id];
      if l.tell {
        objects := objects[id := l.(tell := false)];
        return NewAddress(l.port);
      }
      var q := queues[id];
      if q == [] {
        assert l.port in hub.ports && hub.ports[l.port] == id;
        return ListenerPending;
      }
      queues := queues[id := q[1..]];
      log := log + [Taken(id, q[0])];
      return Incoming(q[0]);
    }

    method Drop(id: Id)
      requires Valid() && id in objects
      modifies this, hub
      ensures Valid() && Now() == Dropped(old(Now()), id)
    {
      DropKeepsInv(Now(), id);
      var o := objects[id];
      if !o.Spent? {
        var sender := hub.UnregisterPort(o.port);
        assert sender.Some?;
      }
      objects, queues := objects - {id}, queues - {id};
    }
  }
}
