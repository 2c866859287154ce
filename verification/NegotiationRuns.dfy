/** A dialer and a listener joined by two byte streams, stepping in any order. */
module NegotiationRuns {
  import opened FrameGrammar
  import opened Messages
  import opened Negotiation
  import opened Wrappers

  // ------------------------------------------------------------ control states

  /** The states of the serial and the parallel dialer. In `Settled` the dialer's future
      has returned a stream that still expects the confirmation. */
  datatype DialerControl =
    | SendHeader
    | SendProtocol(name: Name, rest: seq<Name>)
    | FlushProtocol(name: Name, rest: seq<Name>)
    | AwaitProtocol(name: Name, rest: seq<Name>)
    | SendProtocolsRequest
    | FlushRequest
    | RecvProtocols
    | SendChoice(name: Name)
    | Settled(name: Name, header: bool)
    | Done(outcome: Outcome)

  datatype ListenerControl =
    | AwaitHeader
    | ReplyHeader
    | AwaitMessage(lastSentNa: bool)
    | SendMessage(message: Message, selected: Option<Name>)
    | Flush(selected: Option<Name>, lastSentNa: bool)
    | Ended(outcome: Outcome)

  /** One side: its control state, the messages handed to the stream, those still in the
      write buffer, everything read so far, and whether the end of the stream was read. */
  datatype Side<C> = Side(
    control: C,
    sent: seq<Message>,
    buffer: seq<Message>,
    read: seq<Item>,
    eof: bool)

  function Total<C>(s: Side<C>): seq<Message> {
    s.sent + s.buffer
  }

  /** What one turn of a poll loop can do besides being pending. `Drain` hands one
      buffered message to the stream. */
  datatype Step = Act | Drain | Flushed | Receive(item: Item) | ReceiveEof

  /** Before a sink takes another message it hands over what it has only if that is much. */
  predicate Full(buffer: seq<Message>) {
    |EncodeStream(buffer)| >= MAX_FRAME_SIZE
  }

  lemma HeaderIsNotFull(buffer: seq<Message>)
    requires buffer == [] || buffer == [Header]
    ensures !Full(buffer)
  {
    if buffer != [] {
      assert EncodeStream(buffer) == EncodeFrame(MSG_MULTISTREAM_1_0) + EncodeStream(buffer[1..]);
      assert |EncodeFrame(MSG_MULTISTREAM_1_0)| == 20;
    }
  }

  // -------------------------------------------------------------- dialer steps

  predicate DialerSends(c: DialerControl) {
    c.SendHeader? || c.SendProtocol? || c.SendProtocolsRequest? || c.SendChoice?
  }

  predicate DialerFlushes(c: DialerControl) {
    c.FlushProtocol? || c.FlushRequest?
  }

  predicate DialerReads(c: DialerControl) {
    c.AwaitProtocol? || c.RecvProtocols? || c.Settled?
  }

  /** A settled dialer may read although its buffer is not empty: the stream it has returned
      tolerates that writing fails with nothing written. */
  predicate DialerEnabled(d: Side<DialerControl>, step: Step) {
    match step
    case Act => DialerSends(d.control)
    case Drain =>
      d.buffer != [] && (DialerFlushes(d.control) || d.control.Settled? || (DialerSends(d.control) && Full(d.buffer)))
    case Flushed => d.buffer == [] && DialerFlushes(d.control)
    case Receive(_) => DialerReads(d.control)
    case ReceiveEof => DialerReads(d.control)
  }

  function NextProposal(names: seq<Name>): DialerControl {
    if names == [] then Done(Failed) else SendProtocol(names[0], names[1..])
  }

  /** What a sending state does once the sink is ready. */
  datatype Sending<C> = Push(message: Message, next: C) | Refuse(outcome: Outcome)

  function PushIfSendable<C>(m: Message, next: C): Sending<C> {
    if Sendable(m) then Push(m, next) else Refuse(TOO_LONG)
  }

  function DialerSending(cfg: Config, c: DialerControl): Sending<DialerControl>
    requires DialerSends(c)
  {
    match c
    case SendHeader =>
      PushIfSendable(Header, if cfg.strategy.Serial? then NextProposal(cfg.names) else SendProtocolsRequest)
    case SendProtocol(name, rest) =>
      if !WellFormed(name) then Refuse(Violation(InvalidProtocol))
      else PushIfSendable(Protocol(name),
                          if rest != [] || cfg.version == V1 then FlushProtocol(name, rest) else Settled(name, true))
    case SendProtocolsRequest => PushIfSendable(ListProtocols, FlushRequest)
    case SendChoice(name) =>
      if !WellFormed(name) then Refuse(Violation(InvalidProtocol))
      else PushIfSendable(Protocol(name), Settled(name, false))
  }

  function DialerReceive(cfg: Config, c: DialerControl, item: Item): DialerControl
    requires DialerReads(c)
  {
    match c
    case AwaitProtocol(name, rest) => (
      match item
      case Bad(e) => Done(Violation(e))
      case Good(Header) => c
      case Good(Protocol(p)) => Done(if p == name then Agreed(name) else Violation(InvalidMessage))
      case Good(NotAvailable) => NextProposal(rest)
      case Good(_) => Done(Violation(InvalidMessage))
    )
    case RecvProtocols => (
      match item
      case Bad(e) => Done(Violation(e))
      case Good(Header) => c
      case Good(Protocols(supported)) => (
        match FirstCommon(cfg.names, supported)
        case None => Done(Failed)
        case Some(name) => SendChoice(name)
      )
      case Good(_) => Done(Violation(InvalidMessage))
    )
    case Settled(name, header) => (
      match item
      case Bad(e) => Done(Violation(e))
      case Good(Header) => if header then Settled(name, false) else Done(Failed)
      case Good(Protocol(p)) => Done(if p == name then Agreed(name) else Failed)
      case Good(_) => Done(Failed)
    )
  }

  function DialerStep(cfg: Config, d: Side<DialerControl>, step: Step): Side<DialerControl>
    requires DialerEnabled(d, step)
  {
    match step
    case Act => (
      match DialerSending(cfg, d.control)
      case Push(m, next) => d.(buffer := d.buffer + [m], control := next)
      case Refuse(o) => d.(control := Done(o))
    )
    case Drain => d.(sent := d.sent + [d.buffer[0]], buffer := d.buffer[1..])
    case Flushed =>
      d.(control := match d.control
                    case FlushProtocol(name, rest) => AwaitProtocol(name, rest)
                    case _ => RecvProtocols)
    case Receive(item) => d.(control := DialerReceive(cfg, d.control, item), read := d.read + [item])
    case ReceiveEof =>
      d.(control := Done(if d.control.Settled? then Violation(IoError(UnexpectedEof)) else Failed), eof := true)
  }

  // ------------------------------------------------------------ listener steps

  predicate ListenerSends(c: ListenerControl) {
    c.ReplyHeader? || c.SendMessage?
  }

  predicate ListenerReads(c: ListenerControl) {
    c.AwaitHeader? || c.AwaitMessage?
  }

  predicate ListenerEnabled(l: Side<ListenerControl>, step: Step) {
    match step
    case Act => ListenerSends(l.control)
    case Drain => l.buffer != [] && (l.control.Flush? || (ListenerSends(l.control) && Full(l.buffer)))
    case Flushed => l.buffer == [] && l.control.Flush?
    case Receive(_) => ListenerReads(l.control)
    case ReceiveEof => ListenerReads(l.control)
  }

  function ListenerSending(c: ListenerControl): Sending<ListenerControl>
    requires ListenerSends(c)
  {
    match c
    case ReplyHeader => PushIfSendable(Header, Flush(None, false))
    case SendMessage(m, selected) => PushIfSendable(m, Flush(selected, m.NotAvailable?))
  }

  function ListenerReceive(supported: seq<Name>, c: ListenerControl, item: Item): ListenerControl
    requires ListenerReads(c)
  {
    match c
    case AwaitHeader => (
      match item
      case Bad(e) => Ended(Violation(e))
      case Good(Header) => ReplyHeader
      case Good(_) => Ended(Violation(InvalidMessage))
    )
    case AwaitMessage(na) => (
      match item
      case Bad(e) => Ended(ReadErrorOutcome(na, e))
      case Good(ListProtocols) => SendMessage(Protocols(supported), None)
      case Good(Protocol(p)) =>
        if p in supported then SendMessage(Protocol(p), Some(p)) else SendMessage(NotAvailable, None)
      case Good(_) => Ended(Violation(InvalidMessage))
    )
  }

  function ListenerStep(supported: seq<Name>, l: Side<ListenerControl>, step: Step): Side<ListenerControl>
    requires ListenerEnabled(l, step)
  {
    match step
    case Act => (
      match ListenerSending(l.control)
      case Push(m, next) => l.(buffer := l.buffer + [m], control := next)
      case Refuse(o) => l.(control := Ended(o))
    )
    case Drain => l.(sent := l.sent + [l.buffer[0]], buffer := l.buffer[1..])
    case Flushed =>
      l.(control := match l.control.selected
                    case Some(name) => Ended(Agreed(name))
                    case None => AwaitMessage(l.control.lastSentNa))
    case Receive(item) => l.(control := ListenerReceive(supported, l.control, item), read := l.read + [item])
    case ReceiveEof => l.(control := Ended(Failed), eof := true)
  }

  // ---------------------------------------- what each side keeps, alone, always

  /** The control state agrees with the stream processor: everything queued so far and
      the step still owed add up to what the items read call for. */
  ghost predicate DialerCore(cfg: Config, c: DialerControl, total: seq<Message>, read: seq<Item>, eof: bool) {
    var d := Run(cfg, read);
    match c
    case SendHeader => !eof && read == [] && total == []
    case SendProtocol(n, rest) => !eof && d == Propose(cfg.version, [n] + rest, total)
    case FlushProtocol(n, rest) => !eof && d == Dialer(Await(n, rest), total)
    case AwaitProtocol(n, rest) => !eof && d == Dialer(Await(n, rest), total)
    case SendProtocolsRequest => !eof && cfg.strategy.Parallel? && read == [] && total == [Header]
    case FlushRequest => !eof && d == Dialer(AwaitList, total)
    case RecvProtocols => !eof && d == Dialer(AwaitList, total)
    case SendChoice(n) => !eof && d == Choose(n, total)
    case Settled(n, h) => !eof && d == Dialer(Expecting(n, h), total)
    case Done(o) => d.out == total && (if eof then !d.stage.Over? && o == AtEof(d.stage) else d.stage == Over(o))
  }

  ghost predicate DialerInv(cfg: Config, d: Side<DialerControl>) {
    && DialerCore(cfg, d.control, Total(d), d.read, d.eof)
    && (d.control.AwaitProtocol? || d.control.RecvProtocols? ==> d.buffer == [])
    && (DialerSends(d.control) ==> d.buffer == if d.read == [] && !d.control.SendHeader? then [Header] else [])
    && (Start(cfg).stage.Over? ==> d.read == [] && !d.eof)
    && (d.read != [] ==> JustOver(cfg, d.read))
    && (d.read == [] && !d.eof && (DialerSends(d.control) || d.control.Done?) ==> d.sent == [])
  }

  ghost predicate ListenerCore(sup: seq<Name>, c: ListenerControl, total: seq<Message>, read: seq<Item>, eof: bool) {
    var l := Serve(sup, read);
    match c
    case AwaitHeader => !eof && l == Listener(Negotiation.RecvHeader, total) && total == []
    case ReplyHeader => !eof && l == Reply(total, Header, RecvMessage(false))
    case AwaitMessage(na) => !eof && l == Listener(RecvMessage(na), total)
    case SendMessage(m, None) => !eof && l == Reply(total, m, RecvMessage(m.NotAvailable?))
    case SendMessage(m, Some(n)) => !eof && l == Reply(total, m, Finished(Agreed(n)))
    case Flush(None, na) => !eof && l == Listener(RecvMessage(na), total)
    case Flush(Some(n), _) => !eof && l == Listener(Finished(Agreed(n)), total)
    case Ended(o) =>
      l.out == total && (if eof then !l.stage.Finished? && o == ListenerAtEof(l.stage) else l.stage == Finished(o))
  }

  ghost predicate ListenerInv(sup: seq<Name>, l: Side<ListenerControl>) {
    && ListenerCore(sup, l.control, Total(l), l.read, l.eof)
    && (l.read != [] ==> JustFinished(sup, l.read))
    && (!l.control.Flush? ==> l.buffer == [])
  }

  lemma DialerSendingKeepsCore(cfg: Config, c: DialerControl, total: seq<Message>, read: seq<Item>)
    requires DialerCore(cfg, c, total, read, false) && DialerSends(c)
    ensures match DialerSending(cfg, c)
            case Push(m, next) => DialerCore(cfg, next, total + [m], read, false)
            case Refuse(o) => DialerCore(cfg, Done(o), total, read, false)
  {
    ConstantsArrive();
    match c
    case SendHeader =>
      assert total + [Header] == [Header];
      if cfg.names != [] {
        assert [cfg.names[0]] + cfg.names[1..] == cfg.names;
      }
    case SendProtocol(name, rest) =>
      assert ([name] + rest)[1..] == rest;
    case SendProtocolsRequest =>
      assert total + [ListProtocols] == [Header, ListProtocols];
    case SendChoice(name) =>
  }

  lemma DialerReceiveKeepsCore(cfg: Config, c: DialerControl, total: seq<Message>, read: seq<Item>, item: Item)
    requires DialerCore(cfg, c, total, read, false) && DialerReads(c)
    ensures DialerCore(cfg, DialerReceive(cfg, c, item), total, read + [item], false)
  {
    RunSnoc(cfg, read, item);
    if c.AwaitProtocol? && c.rest != [] {
      assert [c.rest[0]] + c.rest[1..] == c.rest;
    }
  }

  lemma ListenerSendingKeepsCore(sup: seq<Name>, c: ListenerControl, total: seq<Message>, read: seq<Item>)
    requires ListenerCore(sup, c, total, read, false) && ListenerSends(c)
    ensures match ListenerSending(c)
            case Push(m, next) => ListenerCore(sup, next, total + [m], read, false)
            case Refuse(o) => ListenerCore(sup, Ended(o), total, read, false)
  {
  }

  lemma ListenerReceiveKeepsCore(sup: seq<Name>, c: ListenerControl, total: seq<Message>, read: seq<Item>, item: Item)
    requires ListenerCore(sup, c, total, read, false) && ListenerReads(c)
    ensures ListenerCore(sup, ListenerReceive(sup, c, item), total, read + [item], false)
  {
    ServeSnoc(sup, read, item);
  }

  lemma DialerActKeepsInv(cfg: Config, d: Side<DialerControl>)
    requires DialerInv(cfg, d) && DialerEnabled(d, Act)
    ensures DialerInv(cfg, DialerStep(cfg, d, Act))
  {
    DialerSendingKeepsCore(cfg, d.control, Total(d), d.read);
    match DialerSending(cfg, d.control)
    case Push(m, _) => assert Total(DialerStep(cfg, d, Act)) == Total(d) + [m];
    case Refuse(_) =>
  }

  lemma DialerKeepsInv(cfg: Config, d: Side<DialerControl>, step: Step)
    requires DialerInv(cfg, d) && DialerEnabled(d, step)
    ensures DialerInv(cfg, DialerStep(cfg, d, step))
  {
    match step
    case Act => DialerActKeepsInv(cfg, d);
    case Drain => DialerDrainKeepsInv(cfg, d);
    case Flushed => DialerFlushedKeepsInv(cfg, d);
    case Receive(item) => DialerReceiveKeepsInv(cfg, d, item);
    case ReceiveEof => DialerEofKeepsInv(cfg, d);
  }

  lemma DialerDrainKeepsInv(cfg: Config, d: Side<DialerControl>)
    requires DialerInv(cfg, d) && DialerEnabled(d, Drain)
    ensures DialerInv(cfg, DialerStep(cfg, d, Drain))
  {
    if DialerSends(d.control) {
      HeaderIsNotFull(d.buffer);
    }
    assert Total(DialerStep(cfg, d, Drain)) == Total(d);
  }

  lemma DialerFlushedKeepsInv(cfg: Config, d: Side<DialerControl>)
    requires DialerInv(cfg, d) && DialerEnabled(d, Flushed)
    ensures DialerInv(cfg, DialerStep(cfg, d, Flushed))
  {
  }

  lemma DialerEofKeepsInv(cfg: Config, d: Side<DialerControl>)
    requires DialerInv(cfg, d) && DialerReads(d.control)
    ensures DialerInv(cfg, DialerStep(cfg, d, ReceiveEof))
  {
    RunGrows(cfg, Start(cfg), d.read);
  }

  lemma DialerReceiveKeepsInv(cfg: Config, d: Side<DialerControl>, item: Item)
    requires DialerInv(cfg, d) && DialerReads(d.control)
    ensures DialerInv(cfg, DialerStep(cfg, d, Receive(item)))
  {
    RunGrows(cfg, Start(cfg), d.read);
    DialerReceiveKeepsCore(cfg, d.control, Total(d), d.read, item);
    assert (d.read + [item])[..|d.read|] == d.read;
  }

  lemma ListenerActKeepsInv(sup: seq<Name>, l: Side<ListenerControl>)
    requires ListenerInv(sup, l) && ListenerEnabled(l, Act)
    ensures ListenerInv(sup, ListenerStep(sup, l, Act))
  {
    ListenerSendingKeepsCore(sup, l.control, Total(l), l.read);
    match ListenerSending(l.control)
    case Push(m, _) => assert Total(ListenerStep(sup, l, Act)) == Total(l) + [m];
    case Refuse(_) =>
  }

  lemma ListenerKeepsInv(sup: seq<Name>, l: Side<ListenerControl>, step: Step)
    requires ListenerInv(sup, l) && ListenerEnabled(l, step)
    ensures ListenerInv(sup, ListenerStep(sup, l, step))
  {
    match step
    case Act => ListenerActKeepsInv(sup, l);
    case Drain => assert Total(ListenerStep(sup, l, step)) == Total(l);
    case Flushed =>
    case Receive(item) => ListenerReceiveKeepsCore(sup, l.control, Total(l), l.read, item);
    case ReceiveEof =>
  }

  // ------------------------------------------------------- the composed system

  datatype System = System(dialer: Side<DialerControl>, listener: Side<ListenerControl>)

  datatype Move = DialerMove(step: Step) | ListenerMove(step: Step)

  const INIT := System(Side(SendHeader, [], [], [], false), Side(AwaitHeader, [], [], [], false))

  predicate Unsuccessful(o: Outcome) {
    !o.Agreed?
  }

  /** A side that has failed drops its stream. */
  predicate DialerClosed(d: Side<DialerControl>) {
    d.control.Done? && Unsuccessful(d.control.outcome)
  }

  predicate ListenerClosed(l: Side<ListenerControl>) {
    l.control.Ended? && Unsuccessful(l.control.outcome)
  }

  /** A reader gets the next message of its peer as it comes off the wire, or the end of
      the stream when the peer is gone and nothing is left. */
  predicate Delivers(sent: seq<Message>, peerClosed: bool, read: seq<Item>, step: Step) {
    match step
    case Receive(item) => |read| < |sent| && item == Wire(sent[|read|])
    case ReceiveEof => |read| >= |sent| && peerClosed
    case _ => true
  }

  predicate Enabled(s: System, move: Move) {
    match move
    case DialerMove(step) =>
      && DialerEnabled(s.dialer, step)
      && Delivers(s.listener.sent, ListenerClosed(s.listener), s.dialer.read, step)
    case ListenerMove(step) =>
      && ListenerEnabled(s.listener, step)
      && Delivers(s.dialer.sent, DialerClosed(s.dialer), s.listener.read, step)
  }

  function Next(cfg: Config, sup: seq<Name>, s: System, move: Move): System
    requires Enabled(s, move)
  {
    match move
    case DialerMove(step) => s.(dialer := DialerStep(cfg, s.dialer, step))
    case ListenerMove(step) => s.(listener := ListenerStep(sup, s.listener, step))
  }

  ghost predicate LeadsTo(cfg: Config, sup: seq<Name>, s: System, move: Move, t: System) {
    Enabled(s, move) && t == Next(cfg, sup, s, move)
  }

  /** A run: any interleaving of moves from the initial state. Being pending is taking
      no move. */
  ghost predicate IsRun(cfg: Config, sup: seq<Name>, states: seq<System>, moves: seq<Move>) {
    && |states| == |moves| + 1
    && states[0] == INIT
    && (forall i {:trigger moves[i]} | 0 <= i < |moves| :: LeadsTo(cfg, sup, states[i], moves[i], states[i + 1]))
  }

  lemma {:induction false} RunInduction(
    cfg: Config, sup: seq<Name>, states: seq<System>, moves: seq<Move>, i: nat, p: System -> bool)
    requires IsRun(cfg, sup, states, moves) && i < |states|
    requires p(INIT) && forall s, move, t | p(s) && LeadsTo(cfg, sup, s, move, t) :: p(t)
    ensures p(states[i])
  {
    if i > 0 {
      RunInduction(cfg, sup, states, moves, i - 1, p);
      assert LeadsTo(cfg, sup, states[i - 1], moves[i - 1], states[i]);
    }
  }

  ghost predicate Reachable(cfg: Config, sup: seq<Name>, s: System) {
    exists states, moves :: IsRun(cfg, sup, states, moves) && states[|moves|] == s
  }

  predicate BothDone(s: System) {
    s.dialer.control.Done? && s.listener.control.Ended?
  }
}
