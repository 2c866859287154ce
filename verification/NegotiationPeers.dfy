/** What each side does whatever its peer says: what it has said tells what it makes of the next
    thing it reads, and what it takes to agree. */
module NegotiationPeers {
  import opened FrameGrammar
  import opened Messages
  import opened Negotiation
  import opened NegotiationRuns
  import opened Endpoints
  import opened Wrappers

  function Last<T>(s: seq<T>): T
    requires s != []
  {
    s[|s| - 1]
  }

  // ------------------------------------------------------------ what a dialer has said

  function Told(names: seq<Name>): (ms: seq<Message>)
    ensures |ms| == |names| && forall i | 0 <= i < |names| :: ms[i] == Protocol(names[i])
  {
    seq(|names|, i requires 0 <= i < |names| => Protocol(names[i]))
  }

  lemma ToldOneMore(names: seq<Name>, k: nat)
    requires k < |names|
    ensures Told(names[..k + 1]) == Told(names[..k]) + [Protocol(names[k])]
  {
  }

  /** A serial dialer has proposed its first names, in their order. */
  ghost predicate SpokeInTurn(cfg: Config, d: Dialer) {
    && 1 <= |d.out| <= |cfg.names| + 1
    && d.out == [Header] + Told(cfg.names[..|d.out| - 1])
    && match d.stage
       case Await(n, rest) =>
         && |d.out| > 1 && n == cfg.names[|d.out| - 2] && rest == cfg.names[|d.out| - 1..]
         && (rest != [] || cfg.version == V1)
       case Expecting(n, _) => 1 < |d.out| == |cfg.names| + 1 && n == cfg.names[|d.out| - 2] && cfg.version == V1Lazy
       case AwaitList => false
       case Over(_) => true
  }

  /** A parallel dialer has asked for the list, and perhaps announced one of its names. */
  ghost predicate SpokeByList(cfg: Config, d: Dialer) {
    && (d.out == [Header, ListProtocols] || exists n | n in cfg.names :: d.out == [Header, ListProtocols, Protocol(n)])
    && match d.stage
       case Await(_, _) => false
       case Expecting(n, header) => d.out == [Header, ListProtocols, Protocol(n)] && n in cfg.names && !header
       case AwaitList => d.out == [Header, ListProtocols]
       case Over(_) => true
  }

  lemma ProposeSpeaksInTurn(cfg: Config, k: nat)
    requires k <= |cfg.names|
    ensures SpokeInTurn(cfg, Propose(cfg.version, cfg.names[k..], [Header] + Told(cfg.names[..k])))
  {
    if k < |cfg.names| {
      ToldOneMore(cfg.names, k);
      assert cfg.names[k..][1..] == cfg.names[k + 1..];
      assert [Header] + Told(cfg.names[..k]) + [Protocol(cfg.names[k])] == [Header] + Told(cfg.names[..k + 1]);
    }
  }

  lemma ReactSpeaksInTurn(cfg: Config, d: Dialer, item: Item)
    requires SpokeInTurn(cfg, d)
    ensures SpokeInTurn(cfg, React(cfg, d, item))
  {
    if d.stage.Await? && item == Good(NotAvailable) {
      ProposeSpeaksInTurn(cfg, |d.out| - 1);
    }
  }

  /** Whatever it is told, a serial dialer says its header and then its names, in their order. */
  lemma {:induction false} SerialSpeaksInTurn(cfg: Config, items: seq<Item>)
    requires cfg.strategy.Serial?
    ensures SpokeInTurn(cfg, Run(cfg, items))
  {
    if items == [] {
      assert cfg.names[0..] == cfg.names && [Header] + Told(cfg.names[..0]) == [Header];
      ProposeSpeaksInTurn(cfg, 0);
    } else {
      var front, last := items[..|items| - 1], items[|items| - 1];
      SerialSpeaksInTurn(cfg, front);
      assert items == front + [last];
      RunSnoc(cfg, front, last);
      ReactSpeaksInTurn(cfg, Run(cfg, front), last);
    }
  }

  lemma ReactSpeaksByList(cfg: Config, d: Dialer, item: Item)
    requires SpokeByList(cfg, d)
    ensures SpokeByList(cfg, React(cfg, d, item))
  {
    if d.stage.AwaitList? && item.Good? && item.msg.Protocols? {
      FirstCommonIsCommon(cfg.names, item.msg.names);
    }
  }

  /** Whatever it is told, a parallel dialer asks for the list, and announces at most one name, of
      its own. */
  lemma {:induction false} ParallelSpeaksByList(cfg: Config, items: seq<Item>)
    requires cfg.strategy.Parallel?
    ensures SpokeByList(cfg, Run(cfg, items))
  {
    if items != [] {
      var front, last := items[..|items| - 1], items[|items| - 1];
      ParallelSpeaksByList(cfg, front);
      assert items == front + [last];
      RunSnoc(cfg, front, last);
      ReactSpeaksByList(cfg, Run(cfg, front), last);
    }
  }

  // -------------------------------------------------------- what it makes of an answer

  /** The dialer has returned a stream, before it was answered: it has announced a name from the
      list, or, if lazy, its last name. */
  predicate HasSettled(cfg: Config, out: seq<Message>) {
    out != [] && Last(out).Protocol? && (cfg.strategy.Parallel? || (cfg.version == V1Lazy && |out| == |cfg.names| + 1))
  }

  /** A settled dialer still takes a header: a serial one does, once. */
  predicate TakesHeader(cfg: Config, read: seq<Item>) {
    cfg.strategy.Serial? && (read == [] || Last(read) != Good(Header))
  }

  lemma WaitingStage(cfg: Config, read: seq<Item>)
    requires !Run(cfg, read).stage.Over?
    ensures var d := Run(cfg, read);
            && d.out != [] && (d.stage.Expecting? <==> HasSettled(cfg, d.out))
            && (d.stage.AwaitList? <==> Last(d.out) == ListProtocols)
            && (!d.stage.AwaitList? ==> Last(d.out) == Protocol(d.stage.name) && d.stage.name in cfg.names)
  {
    if cfg.strategy.Serial? {
      SerialSpeaksInTurn(cfg, read);
      var out := Run(cfg, read).out;
      assert Last(out) == Told(cfg.names[..|out| - 1])[|out| - 2];
    } else {
      ParallelSpeaksByList(cfg, read);
    }
  }

  lemma {:induction false} SettledHeader(cfg: Config, read: seq<Item>)
    requires Run(cfg, read).stage.Expecting?
    ensures Run(cfg, read).stage.header <==> TakesHeader(cfg, read)
  {
    if cfg.strategy.Parallel? {
      ParallelSpeaksByList(cfg, read);
    } else if read != [] {
      var front, last := read[..|read| - 1], read[|read| - 1];
      assert read == front + [last];
      RunSnoc(cfg, front, last);
      if Run(cfg, front).stage.Expecting? {
        SettledHeader(cfg, front);
      } else {
        SerialSpeaksInTurn(cfg, front);
      }
    }
  }

  /** What a waiting dialer makes of the next thing it reads, in terms of what it has said. */
  lemma WaitingDialerReacts(cfg: Config, read: seq<Item>, item: Item)
    requires !Run(cfg, read).stage.Over?
    ensures var d, e := Run(cfg, read), Run(cfg, read + [item]);
            d.out != [] &&
            var last, settled := Last(d.out), HasSettled(cfg, d.out);
            match item
            case Bad(error) => e == Dialer(Over(Violation(error)), d.out)
            case Good(Protocol(p)) =>
              e == Dialer(Over(if last == Protocol(p) then Agreed(p)
                               else if settled then Failed else Violation(InvalidMessage)), d.out)
            case Good(Header) =>
              e.out == d.out && (if settled && !TakesHeader(cfg, read) then e.stage == Over(Failed) else !e.stage.Over?)
            case Good(NotAvailable) =>
              if settled then e == Dialer(Over(Failed), d.out)
              else if last == ListProtocols then e == Dialer(Over(Violation(InvalidMessage)), d.out)
              else if |d.out| == |cfg.names| + 1 then e == Dialer(Over(Failed), d.out)
              else |d.out| <= |cfg.names| && Proposes(d.out, cfg.names[|d.out| - 1], e)
            case Good(Protocols(list)) =>
              if settled then e == Dialer(Over(Failed), d.out)
              else if last != ListProtocols then e == Dialer(Over(Violation(InvalidMessage)), d.out)
              else if FirstCommon(cfg.names, list).None? then e == Dialer(Over(Failed), d.out)
              else Proposes(d.out, FirstCommon(cfg.names, list).value, e)
            case Good(ListProtocols) =>
              e == Dialer(Over(if settled then Failed else Violation(InvalidMessage)), d.out)
  {
    WaitingStage(cfg, read);
    RunSnoc(cfg, read, item);
    var d := Run(cfg, read);
    if d.stage.Expecting? {
      SettledHeader(cfg, read);
    } else if d.stage.Await? {
      AwaitingInTurn(cfg, read);
    }
  }

  /** The name is proposed, unless it cannot be. */
  predicate Proposes(out: seq<Message>, n: Name, e: Dialer) {
    if !WellFormed(n) then e == Dialer(Over(Violation(InvalidProtocol)), out)
    else if !Sendable(Protocol(n)) then e == Dialer(Over(TOO_LONG), out)
    else e.out == out + [Protocol(n)] && !e.stage.Over?
  }

  lemma AwaitingInTurn(cfg: Config, read: seq<Item>)
    requires Run(cfg, read).stage.Await?
    ensures var d := Run(cfg, read);
            1 <= |d.out| <= |cfg.names| + 1 && d.stage.rest == cfg.names[|d.out| - 1..]
  {
    if cfg.strategy.Serial? {
      SerialSpeaksInTurn(cfg, read);
    } else {
      ParallelSpeaksByList(cfg, read);
    }
  }

  /** How a waiting dialer ends with its stream. */
  lemma DialerAtEnd(cfg: Config, read: seq<Item>)
    requires !Run(cfg, read).stage.Over?
    ensures AtEof(Run(cfg, read).stage) == if HasSettled(cfg, Run(cfg, read).out) then CUT_OFF else Failed
  {
    WaitingStage(cfg, read);
  }

  /** What a dialer begins with. */
  lemma DialerBegins(cfg: Config)
    ensures match cfg.strategy
            case Serial => if cfg.names == [] then Start(cfg) == Dialer(Over(Failed), [Header])
                           else Proposes([Header], cfg.names[0], Start(cfg))
            case Parallel => Start(cfg).out == [Header, ListProtocols] && !Start(cfg).stage.Over?
  {
  }

  // ------------------------------------------------------------- what it takes to agree

  /** A waiting dialer agrees exactly on reading the name it has proposed last. */
  lemma DialerAgreesIff(cfg: Config, read: seq<Item>, item: Item, n: Name)
    requires !Run(cfg, read).stage.Over?
    ensures Run(cfg, read + [item]).stage == Over(Agreed(n))
       <==> && Run(cfg, read).out != [] && Last(Run(cfg, read).out) == Protocol(n)
            && item == Good(Protocol(n))
  {
    WaitingDialerReacts(cfg, read, item);
  }

  lemma AgreedWasConfirmed(cfg: Config, read: seq<Item>, n: Name)
    requires JustOver(cfg, read) && Run(cfg, read).stage == Over(Agreed(n))
    ensures Last(read) == Good(Protocol(n))
    ensures Run(cfg, read).out != [] && Last(Run(cfg, read).out) == Protocol(n) && n in cfg.names
  {
    var front := read[..|read| - 1];
    assert read == front + [Last(read)];
    DialerAgreesIff(cfg, front, Last(read), n);
    WaitingDialerReacts(cfg, front, Last(read));
    WaitingStage(cfg, front);
  }

  /** Whatever the peer does: a dialer that has agreed has read that name last, has proposed it
      last, and it is one of its own. */
  lemma DialerAgreedOnProposal(cfg: Config, d: Side<DialerControl>, n: Name)
    requires DialerInv(cfg, d) && d.control == Done(Agreed(n))
    ensures d.read != [] && Last(d.read) == Good(Protocol(n))
    ensures Total(d) != [] && Last(Total(d)) == Protocol(n) && n in cfg.names
  {
    AgreedMeansOver(cfg, d);
    AgreedWasConfirmed(cfg, d.read, n);
  }

  lemma AgreedMeansOver(cfg: Config, d: Side<DialerControl>)
    requires DialerInv(cfg, d) && d.control.Done? && d.control.outcome.Agreed?
    ensures JustOver(cfg, d.read) && Run(cfg, d.read) == Dialer(Over(d.control.outcome), Total(d))
  {
  }

  /** A dialer that waits for an answer and reads a name agrees exactly if that is its last
      proposal, also if it has settled before. */
  lemma DialerReadsName(cfg: Config, d: Side<DialerControl>, p: Name)
    requires DialerInv(cfg, d) && DialerReads(d.control)
    ensures Total(d) != []
    ensures DialerStep(cfg, d, Receive(Good(Protocol(p)))).control == Done(Agreed(p)) <==> Last(Total(d)) == Protocol(p)
    ensures forall n :: DialerStep(cfg, d, Receive(Good(Protocol(p)))).control == Done(Agreed(n)) ==> n == p
  {
    WaitingIsRun(cfg, d);
    WaitingStage(cfg, d.read);
  }

  lemma WaitingIsRun(cfg: Config, d: Side<DialerControl>)
    requires DialerInv(cfg, d) && DialerReads(d.control)
    ensures var r := Run(cfg, d.read);
            && r.out == Total(d) && !r.stage.Over?
            && match d.control
               case AwaitProtocol(n, rest) => r.stage == Await(n, rest)
               case RecvProtocols => r.stage == AwaitList
               case Settled(n, h) => r.stage == Expecting(n, h)
               case _ => true
  {
  }

  /** The same of the poll loop: for every remote and every delivery of its bytes. */
  lemma DialerObjectAgreedOnProposal(d: DialerSelect, n: Name)
    requires d.Valid() && d.control == Done(Agreed(n))
    ensures d.io.read != [] && Last(d.io.read) == Good(Protocol(n))
    ensures d.io.queued != [] && Last(d.io.queued) == Protocol(n) && n in d.cfg.names
  {
    ObjectIsOver(d.cfg, Agreed(n), d.io.queued, d.io.read, d.eof);
    AgreedWasConfirmed(d.cfg, d.io.read, n);
  }

  lemma ObjectIsOver(cfg: Config, o: Outcome, queued: seq<Message>, read: seq<Item>, eof: bool)
    requires DialerCore(cfg, Done(o), queued, read, eof) && o.Agreed?
    ensures Run(cfg, read) == Dialer(Over(o), queued)
  {
  }

  // ---------------------------------------------------------------------- the listener

  lemma {:induction false} WaitingListenerStage(sup: seq<Name>, read: seq<Item>)
    requires !Serve(sup, read).stage.Finished?
    ensures var l := Serve(sup, read);
            if read == [] then l == Listener(Negotiation.RecvHeader, [])
            else l.out != [] && l.stage == RecvMessage(Last(l.out) == NotAvailable)
  {
    if read != [] {
      var front, last := read[..|read| - 1], read[|read| - 1];
      assert read == front + [last];
      ServeSnoc(sup, front, last);
      WaitingListenerStage(sup, front);
    }
  }

  /** What a waiting listener makes of the next thing it reads, in terms of what it has said. */
  lemma WaitingListenerReacts(sup: seq<Name>, read: seq<Item>, item: Item)
    requires !Serve(sup, read).stage.Finished?
    ensures var l, k := Serve(sup, read), Serve(sup, read + [item]);
            if read == [] then
              match item
              case Bad(error) => k == Listener(Finished(Violation(error)), [])
              case Good(m) =>
                if m == Header then k.out == [Header] && !k.stage.Finished?
                else k == Listener(Finished(Violation(InvalidMessage)), [])
            else
              l.out != [] &&
              match item
              case Bad(error) =>
                var excused := Last(l.out) == NotAvailable && error in {InvalidMessage, IoError(UnexpectedEof)};
                k == Listener(Finished(if excused then Failed else Violation(error)), l.out)
              case Good(ListProtocols) => Replies(sup, l.out, Protocols(sup), None, k)
              case Good(Protocol(p)) =>
                if p in sup then Replies(sup, l.out, Protocol(p), Some(p), k)
                else k.out == l.out + [NotAvailable] && !k.stage.Finished?
              case Good(_) => k == Listener(Finished(Violation(InvalidMessage)), l.out)
  {
    WaitingListenerStage(sup, read);
    ServeSnoc(sup, read, item);
    ConstantsArrive();
  }

  /** The message is sent, and the negotiation is over if a name was selected; or it cannot be. */
  predicate Replies(sup: seq<Name>, out: seq<Message>, m: Message, selected: Option<Name>, k: Listener) {
    if !Sendable(m) then k == Listener(Finished(TOO_LONG), out)
    else && k.out == out + [m]
         && if selected.Some? then k.stage == Finished(Agreed(selected.value)) else !k.stage.Finished?
  }

  /** A waiting listener agrees exactly on reading a name that it supports and can confirm, after
      its greeting. */
  lemma ListenerAgreesIff(sup: seq<Name>, read: seq<Item>, item: Item, n: Name)
    requires !Serve(sup, read).stage.Finished?
    ensures Serve(sup, read + [item]).stage == Finished(Agreed(n))
       <==> read != [] && item == Good(Protocol(n)) && n in sup && Sendable(Protocol(n))
  {
    WaitingListenerReacts(sup, read, item);
  }

  /** Whatever the peer does: a listener that has agreed has read that name last, has confirmed it
      last, and supports it. */
  lemma ListenerAgreedOnProposal(sup: seq<Name>, read: seq<Item>, n: Name)
    requires JustFinished(sup, read) && Serve(sup, read).stage == Finished(Agreed(n))
    ensures Last(read) == Good(Protocol(n)) && n in sup
    ensures Serve(sup, read).out != [] && Last(Serve(sup, read).out) == Protocol(n)
  {
    var front := read[..|read| - 1];
    assert read == front + [Last(read)];
    ListenerAgreesIff(sup, front, Last(read), n);
    WaitingListenerReacts(sup, front, Last(read));
  }

  lemma ListenerObjectAgreedOnProposal(l: ListenerSelect, n: Name)
    requires l.Valid() && l.control == Ended(Agreed(n))
    ensures l.io.read != [] && Last(l.io.read) == Good(Protocol(n)) && n in l.supported
    ensures l.io.queued != [] && Last(l.io.queued) == Protocol(n)
  {
    ListenerObjectIsOver(l.supported, Agreed(n), l.io.queued, l.io.read, l.eof);
    ListenerAgreedOnProposal(l.supported, l.io.read, n);
  }

  lemma ListenerObjectIsOver(sup: seq<Name>, o: Outcome, queued: seq<Message>, read: seq<Item>, eof: bool)
    requires ListenerCore(sup, Ended(o), queued, read, eof) && o.Agreed?
    ensures Serve(sup, read) == Listener(Finished(o), queued)
  {
  }
}
