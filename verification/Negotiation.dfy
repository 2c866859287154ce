/** Protocol negotiation as stream processing: what a dialer and a listener have sent,
    and where they stand, is a function of what they have read so far. */
module Negotiation {
  import Seqs
  import opened FrameGrammar
  import opened Messages
  import opened Wrappers

  datatype Version = V1 | V1Lazy

  datatype Strategy = Serial | Parallel

  /** The strategy follows the upper bound of the iterator's size hint. */
  function ChooseStrategy(upperSizeHint: Option<nat>): Strategy {
    if upperSizeHint.Some? && upperSizeHint.value <= 3 then Serial else Parallel
  }

  datatype Config = Config(strategy: Strategy, version: Version, names: seq<Name>)

  datatype Outcome =
    | Agreed(name: Name)
    | Failed
    | Violation(error: ProtocolError)

  // ---------------------------------------------------------------- the dialer

  datatype Stage =
    | Await(name: Name, rest: seq<Name>)
    | AwaitList
    | Expecting(name: Name, header: bool)
    | Over(outcome: Outcome)

  datatype Dialer = Dialer(stage: Stage, out: seq<Message>)

  const TOO_LONG := Violation(IoError(InvalidData))

  function Emit(out: seq<Message>, m: Message, next: Stage): Dialer {
    if Sendable(m) then Dialer(next, out + [m]) else Dialer(Over(TOO_LONG), out)
  }

  /** Proposes the first of the remaining names. A lazy dialer settles on its last one. */
  function Propose(version: Version, names: seq<Name>, out: seq<Message>): Dialer {
    if names == [] then Dialer(Over(Failed), out)
    else if !WellFormed(names[0]) then Dialer(Over(Violation(InvalidProtocol)), out)
    else Emit(out, Protocol(names[0]),
              if |names| == 1 && version == V1Lazy then Expecting(names[0], true)
              else Await(names[0], names[1..]))
  }

  /** Announces the name picked from the listener's list. */
  function Choose(name: Name, out: seq<Message>): Dialer {
    if !WellFormed(name) then Dialer(Over(Violation(InvalidProtocol)), out)
    else Emit(out, Protocol(name), Expecting(name, false))
  }

  function FirstCommon(names: seq<Name>, supported: seq<Name>): Option<Name> {
    if names == [] then None
    else if names[0] in supported then Some(names[0])
    else FirstCommon(names[1..], supported)
  }

  function Start(cfg: Config): Dialer {
    match cfg.strategy
    case Serial => Propose(cfg.version, cfg.names, [Header])
    case Parallel => Dialer(AwaitList, [Header, ListProtocols])
  }

  function React(cfg: Config, d: Dialer, item: Item): Dialer {
    match d.stage
    case Over(_) => d
    case Await(name, rest) => (
      match item
      case Bad(e) => d.(stage := Over(Violation(e)))
      case Good(Header) => d
      case Good(Protocol(p)) =>
        d.(stage := Over(if p == name then Agreed(name) else Violation(InvalidMessage)))
      case Good(NotAvailable) => Propose(cfg.version, rest, d.out)
      case Good(_) => d.(stage := Over(Violation(InvalidMessage)))
    )
    case AwaitList => (
      match item
      case Bad(e) => d.(stage := Over(Violation(e)))
      case Good(Header) => d
      case Good(Protocols(supported)) => (
        match FirstCommon(cfg.names, supported)
        case None => d.(stage := Over(Failed))
        case Some(name) => Choose(name, d.out)
      )
      case Good(_) => d.(stage := Over(Violation(InvalidMessage)))
    )
    case Expecting(name, header) => (
      match item
      case Bad(e) => d.(stage := Over(Violation(e)))
      case Good(Header) => d.(stage := if header then Expecting(name, false) else Over(Failed))
      case Good(Protocol(p)) => d.(stage := Over(if p == name then Agreed(name) else Failed))
      case Good(_) => d.(stage := Over(Failed))
    )
  }

  function AtEof(stage: Stage): Outcome {
    match stage
    case Over(o) => o
    case Expecting(_, _) => Violation(IoError(UnexpectedEof))
    case _ => Failed
  }

  function RunFrom(cfg: Config, d: Dialer, items: seq<Item>): Dialer
    decreases |items|
  {
    if items == [] then d else RunFrom(cfg, React(cfg, d, items[0]), items[1..])
  }

  function Run(cfg: Config, items: seq<Item>): Dialer {
    RunFrom(cfg, Start(cfg), items)
  }

  // -------------------------------------------------------------- the listener

  datatype ListenerStage =
    | RecvHeader
    | RecvMessage(lastSentNa: bool)
    | Finished(outcome: Outcome)

  datatype Listener = Listener(stage: ListenerStage, out: seq<Message>)

  /** The names a listener really supports: it drops those it cannot announce. */
  function Supported(names: seq<Name>): (r: seq<Name>)
    ensures forall n :: n in r <==> n in names && WellFormed(n)
  {
    if names == [] then []
    else if WellFormed(names[0]) then [names[0]] + Supported(names[1..])
    else Supported(names[1..])
  }

  /** Each name is kept or dropped for itself, so that order and repetitions remain. */
  lemma {:induction false} SupportedInOrder(a: seq<Name>, n: Name, b: seq<Name>)
    ensures Supported(a + [n] + b) == Supported(a) + (if WellFormed(n) then [n] else []) + Supported(b)
  {
    if a == [] {
      assert a + [n] + b == [n] + b && ([n] + b)[1..] == b;
    } else {
      var all := a + [n] + b;
      assert all[1..] == a[1..] + [n] + b && all[0] == a[0];
      SupportedInOrder(a[1..], n, b);
    }
  }

  function Reply(out: seq<Message>, m: Message, next: ListenerStage): Listener {
    if Sendable(m) then Listener(next, out + [m]) else Listener(Finished(TOO_LONG), out)
  }

  /** Unreadable data after a rejection most likely comes from a lazy dialer that has
      already settled; two kinds of errors then count as a failed negotiation. */
  function ReadErrorOutcome(lastSentNa: bool, e: ProtocolError): Outcome {
    if lastSentNa && (e == InvalidMessage || e == IoError(UnexpectedEof)) then Failed else Violation(e)
  }

  function Answer(supported: seq<Name>, l: Listener, item: Item): Listener {
    match l.stage
    case Finished(_) => l
    case RecvHeader => (
      match item
      case Bad(e) => l.(stage := Finished(Violation(e)))
      case Good(Header) => Reply(l.out, Header, RecvMessage(false))
      case Good(_) => l.(stage := Finished(Violation(InvalidMessage)))
    )
    case RecvMessage(na) => (
      match item
      case Bad(e) => l.(stage := Finished(ReadErrorOutcome(na, e)))
      case Good(ListProtocols) => Reply(l.out, Protocols(supported), RecvMessage(false))
      case Good(Protocol(p)) =>
        if p in supported then Reply(l.out, Protocol(p), Finished(Agreed(p)))
        else Reply(l.out, NotAvailable, RecvMessage(true))
      case Good(_) => l.(stage := Finished(Violation(InvalidMessage)))
    )
  }

  function ListenerAtEof(stage: ListenerStage): Outcome {
    match stage
    case Finished(o) => o
    case _ => Failed
  }

  function ServeFrom(supported: seq<Name>, l: Listener, items: seq<Item>): Listener
    decreases |items|
  {
    if items == [] then l else ServeFrom(supported, Answer(supported, l, items[0]), items[1..])
  }

  function Serve(supported: seq<Name>, items: seq<Item>): Listener {
    ServeFrom(supported, Listener(RecvHeader, []), items)
  }

  // -------------------------------------------- laws of both stream processors

  lemma {:induction false} RunFromConcat(cfg: Config, d: Dialer, a: seq<Item>, b: seq<Item>)
    ensures RunFrom(cfg, d, a + b) == RunFrom(cfg, RunFrom(cfg, d, a), b)
    decreases |a|
  {
    if a == [] {
      assert a + b == b;
    } else {
      assert (a + b)[1..] == a[1..] + b;
      RunFromConcat(cfg, React(cfg, d, a[0]), a[1..], b);
    }
  }

  lemma {:induction false} ServeFromConcat(sup: seq<Name>, l: Listener, a: seq<Item>, b: seq<Item>)
    ensures ServeFrom(sup, l, a + b) == ServeFrom(sup, ServeFrom(sup, l, a), b)
    decreases |a|
  {
    if a == [] {
      assert a + b == b;
    } else {
      assert (a + b)[1..] == a[1..] + b;
      ServeFromConcat(sup, Answer(sup, l, a[0]), a[1..], b);
    }
  }

  lemma RunSnoc(cfg: Config, items: seq<Item>, x: Item)
    ensures Run(cfg, items + [x]) == React(cfg, Run(cfg, items), x)
  {
    RunFromConcat(cfg, Start(cfg), items, [x]);
  }

  lemma ServeSnoc(sup: seq<Name>, items: seq<Item>, x: Item)
    ensures Serve(sup, items + [x]) == Answer(sup, Serve(sup, items), x)
  {
    ServeFromConcat(sup, Listener(RecvHeader, []), items, [x]);
  }

  /** Reading more never unsends anything, and an ended negotiation stays as it ended. */
  lemma {:induction false} RunGrows(cfg: Config, d: Dialer, items: seq<Item>)
    ensures d.out <= RunFrom(cfg, d, items).out
    ensures d.stage.Over? ==> RunFrom(cfg, d, items) == d
    decreases |items|
  {
    if items != [] {
      RunGrows(cfg, React(cfg, d, items[0]), items[1..]);
    }
  }

  lemma {:induction false} ServeGrows(sup: seq<Name>, l: Listener, items: seq<Item>)
    ensures l.out <= ServeFrom(sup, l, items).out
    ensures l.stage.Finished? ==> ServeFrom(sup, l, items) == l
    decreases |items|
  {
    if items != [] {
      ServeGrows(sup, Answer(sup, l, items[0]), items[1..]);
    }
  }

  lemma RunOfPrefix(cfg: Config, a: seq<Item>, b: seq<Item>)
    requires a <= b
    ensures Run(cfg, a).out <= Run(cfg, b).out
    ensures Run(cfg, a).stage.Over? ==> Run(cfg, a) == Run(cfg, b)
  {
    assert b == a + b[|a|..];
    RunFromConcat(cfg, Start(cfg), a, b[|a|..]);
    RunGrows(cfg, Run(cfg, a), b[|a|..]);
  }

  lemma ServeOfPrefix(sup: seq<Name>, a: seq<Item>, b: seq<Item>)
    requires a <= b
    ensures Serve(sup, a).out <= Serve(sup, b).out
    ensures Serve(sup, a).stage.Finished? ==> Serve(sup, a) == Serve(sup, b)
  {
    assert b == a + b[|a|..];
    ServeFromConcat(sup, Listener(RecvHeader, []), a, b[|a|..]);
    ServeGrows(sup, Serve(sup, a), b[|a|..]);
  }

  /** The last item read is the one that decided. */
  ghost predicate JustOver(cfg: Config, read: seq<Item>) {
    read != [] && !Run(cfg, read[..|read| - 1]).stage.Over?
  }

  ghost predicate JustFinished(sup: seq<Name>, read: seq<Item>) {
    read != [] && !Serve(sup, read[..|read| - 1]).stage.Finished?
  }

  function Answers(items: seq<Item>): nat {
    if items == [] then 0 else (if items[0] == Good(Header) then 0 else 1) + Answers(items[1..])
  }

  /** A dialer that is still waiting has asked once more for each answer, whatever it has
      been told. */
  lemma {:induction false} WaitingDialerIsAhead(cfg: Config, d: Dialer, items: seq<Item>)
    requires !RunFrom(cfg, d, items).stage.Over?
    ensures !d.stage.Over?
    ensures |RunFrom(cfg, d, items).out| == |d.out| + Answers(items)
    decreases |items|
  {
    if items != [] {
      WaitingDialerIsAhead(cfg, React(cfg, d, items[0]), items[1..]);
    }
  }

  /** A listener that is still waiting has sent one message for each it has read. */
  lemma {:induction false} WaitingListenerIsEven(sup: seq<Name>, l: Listener, items: seq<Item>)
    requires !ServeFrom(sup, l, items).stage.Finished?
    ensures |ServeFrom(sup, l, items).out| == |l.out| + |items|
    decreases |items|
  {
    if items != [] {
      ServeGrows(sup, Answer(sup, l, items[0]), items[1..]);
      WaitingListenerIsEven(sup, Answer(sup, l, items[0]), items[1..]);
    }
  }

  /** A listener says nothing unasked, and greets first. */
  lemma {:induction false} ListenerOnlyAnswers(sup: seq<Name>, l: Listener, items: seq<Item>)
    requires l.stage.RecvHeader? ==> l.out == []
    requires !l.stage.RecvHeader? && l.out != [] ==> l.out[0] == Header
    requires l.stage.RecvMessage? ==> l.out != []
    ensures var out := ServeFrom(sup, l, items).out;
            |out| <= |l.out| + |items| && (out != [] ==> out[0] == Header)
    decreases |items|
  {
    if items != [] {
      ListenerOnlyAnswers(sup, Answer(sup, l, items[0]), items[1..]);
    }
  }

  /** A listener that ends without an agreement leaves the last thing it read unanswered. */
  lemma UnansweredEnd(sup: seq<Name>, read: seq<Item>)
    requires Serve(sup, read).stage.Finished? && !Serve(sup, read).stage.outcome.Agreed?
    ensures |Serve(sup, read).out| < |read|
  {
    UnansweredEndFrom(sup, Listener(RecvHeader, []), read);
  }

  lemma {:induction false} UnansweredEndFrom(sup: seq<Name>, l: Listener, items: seq<Item>)
    requires !l.stage.Finished? && ServeFrom(sup, l, items).stage.Finished?
    requires !ServeFrom(sup, l, items).stage.outcome.Agreed?
    ensures |ServeFrom(sup, l, items).out| < |l.out| + |items|
    decreases |items|
  {
    var l' := Answer(sup, l, items[0]);
    if l'.stage.Finished? {
      ServeGrows(sup, l', items[1..]);
    } else {
      UnansweredEndFrom(sup, l', items[1..]);
    }
  }

  // -------------------------------------------------- the whole conversation

  /** A valid name that fits into a frame and yet does not reach the peer as it was sent: it
      has a line feed in it, or spells the header. */
  predicate Garbled(n: Name) {
    WellFormed(n) && Sendable(Protocol(n)) && !Readable(Protocol(n))
  }

  /** A name that reaches the peer as it was sent. */
  predicate Tellable(n: Name) {
    WellFormed(n) && Sendable(Protocol(n)) && Readable(Protocol(n))
  }

  /** How a settled dialer ends when the peer hangs up. */
  const CUT_OFF := Violation(IoError(UnexpectedEof))

  /** How a listener ends on something that is neither a proposal nor a request. */
  function Refusal(lastSentNa: bool, item: Item): Outcome {
    match item
    case Bad(e) => ReadErrorOutcome(lastSentNa, e)
    case Good(_) => Violation(InvalidMessage)
  }

  /** How a negotiation between these two parties ends for a serial dialer. On a garbled name
      the listener hangs up, which a dialer that has settled on it takes for an error. */
  function SerialOutcome(version: Version, names: seq<Name>, supported: seq<Name>): Outcome {
    if names == [] then Failed
    else if !WellFormed(names[0]) then Violation(InvalidProtocol)
    else if !Sendable(Protocol(names[0])) then TOO_LONG
    else if Garbled(names[0]) then (if |names| == 1 && version == V1Lazy then CUT_OFF else Failed)
    else if names[0] in supported then Agreed(names[0])
    else SerialOutcome(version, names[1..], supported)
  }

  /** How it ends for the listener, which may just have rejected another name. */
  function ServedOutcome(names: seq<Name>, supported: seq<Name>, lastSentNa: bool): Outcome {
    if names == [] then Failed
    else if Garbled(names[0]) then Refusal(lastSentNa, Wire(Protocol(names[0])))
    else if !Tellable(names[0]) then Failed
    else if names[0] in supported then Agreed(names[0])
    else ServedOutcome(names[1..], supported, true)
  }

  function ParallelOutcome(names: seq<Name>, supported: seq<Name>): Outcome {
    match FirstCommon(names, supported)
    case None => Failed
    case Some(name) => if Readable(Protocol(name)) then Agreed(name) else CUT_OFF
  }

  /** The list of the listener's names fits into a frame. */
  predicate ListFits(supported: seq<Name>) {
    Sendable(Protocols(supported))
  }

  /** A dialer that asks for the list gets it as it is. */
  predicate Listable(supported: seq<Name>) {
    ListFits(supported) && |supported| <= MAX_PROTOCOLS
  }

  /** How it ends for the dialer. A listener whose list does not fit hangs up, and a list of
      more names than a dialer accepts is an error. */
  function DialerOutcome(cfg: Config, supported: seq<Name>): Outcome {
    match cfg.strategy
    case Serial => SerialOutcome(cfg.version, cfg.names, supported)
    case Parallel =>
      if !ListFits(supported) then Failed
      else if !Listable(supported) then Violation(TooManyProtocols)
      else ParallelOutcome(cfg.names, supported)
  }

  function ListenerOutcome(cfg: Config, supported: seq<Name>): Outcome {
    match cfg.strategy
    case Serial => ServedOutcome(cfg.names, supported, false)
    case Parallel =>
      if !ListFits(supported) then TOO_LONG
      else
        match Choice(cfg.names, supported)
        case Some(name) =>
          if Readable(Protocol(name)) then Agreed(name) else Refusal(false, Wire(Protocol(name)))
        case None => Failed
  }

  function Proposals(names: seq<Name>, supported: seq<Name>): seq<Message> {
    if names == [] || !WellFormed(names[0]) || !Sendable(Protocol(names[0])) then []
    else if Garbled(names[0]) || names[0] in supported then [Protocol(names[0])]
    else [Protocol(names[0])] + Proposals(names[1..], supported)
  }

  function Replies(names: seq<Name>, supported: seq<Name>): seq<Message> {
    if names == [] || !Tellable(names[0]) then []
    else if names[0] in supported then [Protocol(names[0])]
    else [NotAvailable] + Replies(names[1..], supported)
  }

  /** The serial dialer comes to propose a garbled name. */
  predicate Garbles(names: seq<Name>, supported: seq<Name>) {
    && names != []
    && (Garbled(names[0]) || (Tellable(names[0]) && names[0] !in supported && Garbles(names[1..], supported)))
  }

  /** The name a parallel dialer picks from the list, if it gets one. */
  function Choice(names: seq<Name>, supported: seq<Name>): Option<Name> {
    if Listable(supported) then FirstCommon(names, supported) else None
  }

  function ChoiceMessage(choice: Option<Name>): seq<Message> {
    match choice
    case Some(name) => [Protocol(name)]
    case None => []
  }

  function Confirmation(choice: Option<Name>): seq<Message> {
    match choice
    case Some(name) => if Readable(Protocol(name)) then [Protocol(name)] else []
    case None => []
  }

  /** All the dialer has to say to this listener, and all it hears in return. */
  function Said(cfg: Config, supported: seq<Name>): seq<Message> {
    match cfg.strategy
    case Serial => [Header] + Proposals(cfg.names, supported)
    case Parallel => [Header, ListProtocols] + ChoiceMessage(Choice(cfg.names, supported))
  }

  function Heard(cfg: Config, supported: seq<Name>): seq<Message> {
    match cfg.strategy
    case Serial => [Header] + Replies(cfg.names, supported)
    case Parallel =>
      if ListFits(supported) then [Header, Protocols(supported)] + Confirmation(Choice(cfg.names, supported))
      else [Header]
  }

  /** The names of a listener are those it has not dropped. */
  predicate Announced(supported: seq<Name>) {
    forall n | n in supported :: WellFormed(n)
  }

  type Offer = names: seq<Name> | Announced(names)

  lemma TellableArrives(n: Name)
    requires Tellable(n)
    ensures Wire(Protocol(n)) == Good(Protocol(n))
  {
    ReadableArrives(Protocol(n));
  }

  lemma GarbledIsRefused(sup: seq<Name>, na: bool, out: seq<Message>, n: Name)
    requires Garbled(n)
    ensures var item := Wire(Protocol(n));
            && Answer(sup, Listener(RecvMessage(na), out), item) == Listener(Finished(Refusal(na, item)), out)
            && !Refusal(na, item).Agreed?
  {
    var e := Encode(Protocol(n));
    assert e[0] == SLASH && e[..|e| - 1] == n;
  }

  lemma {:induction false} ListedNamesAreShort(names: seq<Name>, n: Name)
    requires n in names
    ensures |n| < |EncodeList(names)|
  {
    if n != names[0] {
      ListedNamesAreShort(names[1..], n);
    }
  }

  lemma ListArrives(supported: seq<Name>)
    requires Announced(supported) && ListFits(supported)
    ensures Wire(Protocols(supported))
         == if Listable(supported) then Good(Protocols(supported)) else Bad(TooManyProtocols)
  {
    forall n | n in supported ensures NameInvariant(n) {
      ListedNamesAreShort(supported, n);
    }
    ListDecodes(supported);
  }

  lemma ConstantsArrive()
    ensures Wire(Header) == Good(Header) && Sendable(Header)
    ensures Wire(NotAvailable) == Good(NotAvailable) && Sendable(NotAvailable)
    ensures Wire(ListProtocols) == Good(ListProtocols) && Sendable(ListProtocols)
  {
    ReadableArrives(Header);
    ReadableArrives(NotAvailable);
    ReadableArrives(ListProtocols);
  }

  /** Having heard all replies, a serial dialer has made exactly the proposals up to the
      first supported or garbled name, and ends accordingly, in the latter case once the
      listener hangs up. */
  lemma {:induction false} SerialDialerConverses(cfg: Config, names: seq<Name>, sup: seq<Name>, out: seq<Message>)
    ensures var d := RunFrom(cfg, Propose(cfg.version, names, out), WireAll(Replies(names, sup)));
            && d.out == out + Proposals(names, sup) && AtEof(d.stage) == SerialOutcome(cfg.version, names, sup)
            && (d.stage.Over? <==> !Garbles(names, sup))
    decreases |names|
  {
    if names == [] || !WellFormed(names[0]) || !Sendable(Protocol(names[0])) {
      assert out + Proposals(names, sup) == out;
    } else if Tellable(names[0]) {
      var n := names[0];
      TellableArrives(n);
      ConstantsArrive();
      var d := Propose(cfg.version, names, out);
      var more := Replies(names[1..], sup);
      if n in sup {
        assert WireAll([Protocol(n)]) == [Good(Protocol(n))];
        RunOne(cfg, d, Good(Protocol(n)), []);
      } else {
        WireAllCons(NotAvailable, more);
        RunOne(cfg, d, Good(NotAvailable), WireAll(more));
        Seqs.Assoc(out, [Protocol(n)], Proposals(names[1..], sup));
        if |names| == 1 {
          assert more == [] && names[1..] == [];
        }
        if !(|names| == 1 && cfg.version == V1Lazy) {
          SerialDialerConverses(cfg, names[1..], sup, out + [Protocol(n)]);
        }
      }
    }
  }

  lemma RunOne(cfg: Config, d: Dialer, x: Item, items: seq<Item>)
    ensures RunFrom(cfg, d, [x] + items) == RunFrom(cfg, React(cfg, d, x), items)
  {
    assert ([x] + items)[1..] == items;
  }

  lemma ServeOne(sup: seq<Name>, l: Listener, x: Item, items: seq<Item>)
    ensures ServeFrom(sup, l, [x] + items) == ServeFrom(sup, Answer(sup, l, x), items)
  {
    assert ([x] + items)[1..] == items;
  }

  /** Having heard all proposals, the listener has sent exactly the replies. */
  lemma {:induction false} ListenerConverses(names: seq<Name>, sup: seq<Name>, na: bool, out: seq<Message>)
    ensures var l := ServeFrom(sup, Listener(RecvMessage(na), out), WireAll(Proposals(names, sup)));
            && l.out == out + Replies(names, sup) && ListenerAtEof(l.stage) == ServedOutcome(names, sup, na)
            && (l.stage.Finished? <==> Garbles(names, sup) || ServedOutcome(names, sup, na).Agreed?)
            && (!l.stage.Finished? ==> l.stage == RecvMessage(na || Replies(names, sup) != []))
    ensures Garbles(names, sup) ==> !ServedOutcome(names, sup, na).Agreed?
    ensures |Proposals(names, sup)| == |Replies(names, sup)| + (if Garbles(names, sup) then 1 else 0)
    decreases |names|
  {
    if names == [] || !WellFormed(names[0]) || !Sendable(Protocol(names[0])) {
    } else {
      var n := names[0];
      var l := Listener(RecvMessage(na), out);
      if Garbled(n) {
        GarbledIsRefused(sup, na, out, n);
        WireAllCons(Protocol(n), []);
        ServeOne(sup, l, Wire(Protocol(n)), []);
      } else if n in sup {
        TellableArrives(n);
        WireAllCons(Protocol(n), []);
        ServeOne(sup, l, Good(Protocol(n)), []);
      } else {
        TellableArrives(n);
        ConstantsArrive();
        var more := Proposals(names[1..], sup);
        WireAllCons(Protocol(n), more);
        ServeOne(sup, l, Good(Protocol(n)), WireAll(more));
        Seqs.Assoc(out, [NotAvailable], Replies(names[1..], sup));
        ListenerConverses(names[1..], sup, true, out + [NotAvailable]);
      }
    }
  }

  lemma {:induction false} SerialSidesAgree(version: Version, names: seq<Name>, sup: seq<Name>, na: bool, n: Name)
    ensures SerialOutcome(version, names, sup) == Agreed(n) <==> ServedOutcome(names, sup, na) == Agreed(n)
  {
    if names != [] && Tellable(names[0]) && names[0] !in sup {
      SerialSidesAgree(version, names[1..], sup, true, n);
    }
  }

  lemma {:induction false} FirstCommonIsCommon(names: seq<Name>, sup: seq<Name>)
    ensures match FirstCommon(names, sup)
            case None => forall n | n in names :: n !in sup
            case Some(n) => n in names && n in sup
  {
    if names != [] && names[0] !in sup {
      FirstCommonIsCommon(names[1..], sup);
    }
  }

  lemma RunTwo(cfg: Config, d: Dialer, x: Item, y: Item, items: seq<Item>)
    ensures RunFrom(cfg, d, [x, y] + items) == RunFrom(cfg, React(cfg, React(cfg, d, x), y), items)
  {
    assert [x, y] + items == [x] + ([y] + items);
    RunOne(cfg, d, x, [y] + items);
    RunOne(cfg, React(cfg, d, x), y, items);
  }

  lemma ServeTwo(sup: seq<Name>, l: Listener, x: Item, y: Item, items: seq<Item>)
    ensures ServeFrom(sup, l, [x, y] + items) == ServeFrom(sup, Answer(sup, Answer(sup, l, x), y), items)
  {
    assert [x, y] + items == [x] + ([y] + items);
    ServeOne(sup, l, x, [y] + items);
    ServeOne(sup, Answer(sup, l, x), y, items);
  }

  /** What a parallel dialer picks from the list can be sent. */
  lemma ChoiceIsSendable(names: seq<Name>, sup: seq<Name>)
    requires Announced(sup) && Choice(names, sup).Some?
    ensures var n := Choice(names, sup).value; n in sup && n in names && (Tellable(n) || Garbled(n))
  {
    FirstCommonIsCommon(names, sup);
    ListedNamesAreShort(sup, Choice(names, sup).value);
  }

  lemma ParallelDialerConverses(cfg: Config, sup: seq<Name>)
    requires cfg.strategy.Parallel? && Announced(sup)
    ensures var d := Run(cfg, WireAll(Heard(cfg, sup)));
            && d.out == Said(cfg, sup) && AtEof(d.stage) == DialerOutcome(cfg, sup)
            && (d.stage.Over? <==> ListFits(sup) && |Said(cfg, sup)| == |Heard(cfg, sup)|)
  {
    ConstantsArrive();
    if !ListFits(sup) {
      assert WireAll([Header]) == [Good(Header)] + [];
      RunOne(cfg, Start(cfg), Good(Header), []);
      assert Said(cfg, sup) == [Header, ListProtocols];
    } else {
      ListArrives(sup);
      ListedDialerConverses(cfg, sup);
    }
  }

  lemma ListedDialerConverses(cfg: Config, sup: seq<Name>)
    requires cfg.strategy.Parallel? && Announced(sup) && ListFits(sup) && Wire(Header) == Good(Header)
    requires Wire(Protocols(sup)) == if Listable(sup) then Good(Protocols(sup)) else Bad(TooManyProtocols)
    ensures var d := Run(cfg, WireAll(Heard(cfg, sup)));
            && d.out == Said(cfg, sup) && AtEof(d.stage) == DialerOutcome(cfg, sup)
            && (d.stage.Over? <==> |Said(cfg, sup)| == |Heard(cfg, sup)|)
  {
    var choice := Choice(cfg.names, sup);
    var conf := Confirmation(choice);
    var start := Dialer(AwaitList, [Header, ListProtocols]);
    var d := React(cfg, start, Wire(Protocols(sup)));
    WireAllTwo(Header, Protocols(sup), conf);
    RunTwo(cfg, start, Good(Header), Wire(Protocols(sup)), WireAll(conf));
    if choice.None? {
      assert d == Dialer(Over(DialerOutcome(cfg, sup)), Said(cfg, sup));
    } else {
      ChoiceIsSendable(cfg.names, sup);
      assert d == Dialer(Expecting(choice.value, false), Said(cfg, sup));
      ChoiceIsHeard(cfg, choice.value, d);
    }
  }

  lemma ChoiceIsHeard(cfg: Config, n: Name, d: Dialer)
    requires d.stage == Expecting(n, false) && (Tellable(n) || Garbled(n))
    ensures RunFrom(cfg, d, WireAll(Confirmation(Some(n))))
         == if Readable(Protocol(n)) then Dialer(Over(Agreed(n)), d.out) else d
  {
    var conf := Confirmation(Some(n));
    if Tellable(n) {
      TellableArrives(n);
      assert WireAll(conf) == [Good(Protocol(n))] + [];
      RunOne(cfg, d, Good(Protocol(n)), []);
    } else {
      assert WireAll(conf) == [];
    }
  }

  lemma ParallelListenerConverses(cfg: Config, sup: seq<Name>)
    requires cfg.strategy.Parallel? && Announced(sup)
    ensures var l := Serve(sup, WireAll(Said(cfg, sup)));
            && l.out == Heard(cfg, sup) && ListenerAtEof(l.stage) == ListenerOutcome(cfg, sup)
            && (l.stage.Finished? <==> Choice(cfg.names, sup).Some? || !ListFits(sup))
  {
    ConstantsArrive();
    var choice := Choice(cfg.names, sup);
    var l0, told := Listener(RecvHeader, []), ChoiceMessage(choice);
    WireAllTwo(Header, ListProtocols, told);
    ServeTwo(sup, l0, Good(Header), Good(ListProtocols), WireAll(told));
    assert Answer(sup, l0, Good(Header)) == Listener(RecvMessage(false), [Header]);
    var l := Answer(sup, Listener(RecvMessage(false), [Header]), Good(ListProtocols));
    if choice.None? {
      assert WireAll(told) == [];
    } else {
      assert l == Listener(RecvMessage(false), [Header, Protocols(sup)]);
      ChoiceIsServed(cfg.names, sup, l);
    }
  }

  lemma ChoiceIsServed(names: seq<Name>, sup: seq<Name>, l: Listener)
    requires Announced(sup) && Choice(names, sup).Some? && l.stage == RecvMessage(false)
    ensures var choice := Choice(names, sup);
            ServeFrom(sup, l, WireAll(ChoiceMessage(choice)))
            == if Readable(Protocol(choice.value)) then
                 Listener(Finished(Agreed(choice.value)), l.out + Confirmation(choice))
               else
                 Listener(Finished(Refusal(false, Wire(Protocol(choice.value)))), l.out + Confirmation(choice))
  {
    var n := Choice(names, sup).value;
    ChoiceIsSendable(names, sup);
    assert WireAll([Protocol(n)]) == [Wire(Protocol(n))] + [];
    ServeOne(sup, l, Wire(Protocol(n)), []);
    if Garbled(n) {
      GarbledIsRefused(sup, false, l.out, n);
    } else {
      TellableArrives(n);
    }
  }

  lemma SerialSidesConverse(cfg: Config, sup: seq<Name>)
    requires cfg.strategy.Serial?
    ensures var d, l := Run(cfg, WireAll(Heard(cfg, sup))), Serve(sup, WireAll(Said(cfg, sup)));
            && d.out == Said(cfg, sup) && l.out == Heard(cfg, sup)
            && AtEof(d.stage) == DialerOutcome(cfg, sup) && ListenerAtEof(l.stage) == ListenerOutcome(cfg, sup)
            && (d.stage.Over? <==> !Garbles(cfg.names, sup))
            && (l.stage.Finished? <==> Garbles(cfg.names, sup) || ListenerOutcome(cfg, sup).Agreed?)
            && (!l.stage.Finished? ==> l.stage == RecvMessage(|Heard(cfg, sup)| > 1))
  {
    SerialHeaderIsSkipped(cfg, sup);
    SerialDialerConverses(cfg, cfg.names, sup, [Header]);
    ConstantsArrive();
    WireAllCons(Header, Proposals(cfg.names, sup));
    var l0 := Listener(RecvHeader, []);
    ServeOne(sup, l0, Good(Header), WireAll(Proposals(cfg.names, sup)));
    assert Answer(sup, l0, Good(Header)) == Listener(RecvMessage(false), [Header]);
    ListenerConverses(cfg.names, sup, false, [Header]);
  }

  lemma SerialHeaderIsSkipped(cfg: Config, sup: seq<Name>)
    requires cfg.strategy.Serial?
    ensures var d, d' := Run(cfg, WireAll(Heard(cfg, sup))), RunFrom(cfg, Start(cfg), WireAll(Replies(cfg.names, sup)));
            d.out == d'.out && AtEof(d.stage) == AtEof(d'.stage) && (d.stage.Over? <==> d'.stage.Over?)
  {
    ConstantsArrive();
    var replies := Replies(cfg.names, sup);
    WireAllCons(Header, replies);
    RunOne(cfg, Start(cfg), Good(Header), WireAll(replies));
    if replies == [] {
      assert WireAll(replies) == [];
    } else {
      TellableArrives(cfg.names[0]);
      HeaderIsSkipped(cfg, Start(cfg), WireAll(replies));
    }
  }

  /** The conversation is a common fixpoint: hearing all of `Heard` makes the dialer say
      `Said`, and hearing all of `Said` makes the listener answer `Heard`. Both then stand
      where the outcomes say, one of them perhaps only once the other one hangs up. */
  lemma ConversationIsFixpoint(cfg: Config, sup: seq<Name>)
    requires Announced(sup)
    ensures var d, l := Run(cfg, WireAll(Heard(cfg, sup))), Serve(sup, WireAll(Said(cfg, sup)));
            && d.out == Said(cfg, sup) && l.out == Heard(cfg, sup)
            && AtEof(d.stage) == DialerOutcome(cfg, sup)
            && ListenerAtEof(l.stage) == ListenerOutcome(cfg, sup)
            && (d.stage.Over? ==> (l.stage.Finished? <==> DialerOutcome(cfg, sup).Agreed?)
                                  && |Said(cfg, sup)| == |Heard(cfg, sup)|)
            && (!d.stage.Over? ==> l.stage.Finished? && |Said(cfg, sup)| == |Heard(cfg, sup)| + 1)
    ensures forall n :: DialerOutcome(cfg, sup) == Agreed(n) <==> ListenerOutcome(cfg, sup) == Agreed(n)
  {
    if cfg.strategy.Parallel? {
      ParallelDialerConverses(cfg, sup);
      ParallelListenerConverses(cfg, sup);
      if Choice(cfg.names, sup).Some? {
        ChoiceIsSendable(cfg.names, sup);
      }
    } else {
      SerialSidesConverse(cfg, sup);
      ListenerConverses(cfg.names, sup, false, []);
      forall n ensures DialerOutcome(cfg, sup) == Agreed(n) <==> ListenerOutcome(cfg, sup) == Agreed(n) {
        SerialSidesAgree(cfg.version, cfg.names, sup, false, n);
      }
    }
  }

  /** A serial dialer's first header makes no difference to how it ends. */
  lemma HeaderIsSkipped(cfg: Config, d: Dialer, items: seq<Item>)
    requires !d.stage.AwaitList? && (d.stage.Expecting? ==> d.stage.header)
    requires if items == [] then d.stage.Over? else items[0] != Good(Header)
    ensures RunFrom(cfg, d, [Good(Header)] + items) == RunFrom(cfg, d, items)
  {
    RunOne(cfg, d, Good(Header), items);
    RunGrows(cfg, d, items);
    if d.stage.Expecting? && items != [] {
      var d' := d.(stage := Expecting(d.stage.name, false));
      assert React(cfg, d', items[0]) == React(cfg, d, items[0]);
    }
  }
}
