/** What holds in every run of a dialer against a listener. */
module NegotiationTheorems {
  import Seqs
  import opened Messages
  import opened Negotiation
  import opened NegotiationRuns

  // ------------------------------------------------------------- two joined sides

  /** What two sides joined by streams keep, whatever their names are. */
  ghost predicate Joined(cfg: Config, sup: seq<Name>, s: System) {
    && DialerInv(cfg, s.dialer)
    && ListenerInv(sup, s.listener)
    && s.dialer.read <= WireAll(s.listener.sent)
    && s.listener.read <= WireAll(s.dialer.sent)
    && (s.dialer.control.Done? && s.dialer.read != [] && !s.dialer.eof ==> s.dialer.buffer == [])
  }

  lemma DialerQueuesWithinRun(cfg: Config, d: Side<DialerControl>)
    requires DialerInv(cfg, d)
    ensures Total(d) <= Run(cfg, d.read).out
    ensures d.control.Done? ==> Total(d) == Run(cfg, d.read).out
  {
    ConstantsArrive();
  }

  lemma ListenerQueuesWithinServe(sup: seq<Name>, l: Side<ListenerControl>)
    requires ListenerInv(sup, l)
    ensures Total(l) <= Serve(sup, l.read).out
    ensures l.control.Ended? ==> Total(l) == Serve(sup, l.read).out
  {
  }

  lemma ListenerIsAsked(sup: seq<Name>, l: Side<ListenerControl>)
    requires ListenerInv(sup, l)
    ensures |l.sent| <= |l.read| && (l.sent != [] ==> l.sent[0] == Header)
  {
    ListenerQueuesWithinServe(sup, l);
    ListenerOnlyAnswers(sup, Listener(Negotiation.RecvHeader, []), l.read);
    assert l.sent <= Serve(sup, l.read).out;
  }

  lemma WaitingDialerTotal(cfg: Config, d: Side<DialerControl>)
    requires DialerInv(cfg, d) && DialerReads(d.control)
    ensures |Total(d)| == 2 + Answers(d.read)
    ensures d.read == [] && d.control.Settled? ==> d.control.header
  {
    WaitingDialerIsAhead(cfg, Start(cfg), d.read);
  }

  lemma {:induction false} GreetedAnswers(items: seq<Item>)
    ensures Answers(items) <= |items|
    ensures items != [] && items[0] == Good(Header) ==> Answers(items) < |items|
  {
    if items != [] {
      GreetedAnswers(items[1..]);
    }
  }

  /** Whatever ends the wait of a settled dialer answers its last message, which therefore
      is not in its buffer any more. */
  lemma AnsweredDialerIsDrained(cfg: Config, sup: seq<Name>, s: System)
    requires Joined(cfg, sup, s) && s.dialer.control.Settled? && |s.dialer.read| < |s.listener.sent|
    requires DialerReceive(cfg, s.dialer.control, Wire(s.listener.sent[|s.dialer.read|])).Done?
    ensures s.dialer.buffer == []
  {
    var d, l := s.dialer, s.listener;
    ConstantsArrive();
    WaitingDialerTotal(cfg, d);
    ListenerIsAsked(sup, l);
    GreetedAnswers(d.read);
    assert d.read != [] ==> d.read[0] == WireAll(l.sent)[0];
    assert |d.sent| >= |l.read| >= |l.sent| >= |d.read| + 1;
  }

  lemma WireAllPrefix(a: seq<Message>, b: seq<Message>)
    requires a <= b
    ensures WireAll(a) <= WireAll(b)
  {
  }

  lemma ReadOne(read: seq<Item>, sent: seq<Message>)
    requires read <= WireAll(sent) && |read| < |sent|
    ensures read + [Wire(sent[|read|])] <= WireAll(sent)
  {
    Seqs.PrefixSnoc(read, WireAll(sent), WireAll(sent));
  }

  lemma DialerMoveKeepsJoined(cfg: Config, sup: seq<Name>, s: System, step: Step)
    requires Joined(cfg, sup, s) && Enabled(s, DialerMove(step))
    ensures Joined(cfg, sup, Next(cfg, sup, s, DialerMove(step)))
  {
    DialerKeepsInv(cfg, s.dialer, step);
    match step
    case Drain => WireAllPrefix(s.dialer.sent, s.dialer.sent + [s.dialer.buffer[0]]);
    case Receive(item) =>
      ReadOne(s.dialer.read, s.listener.sent);
      AnswerFindsDrained(cfg, sup, s, item);
    case _ =>
  }

  lemma AnswerFindsDrained(cfg: Config, sup: seq<Name>, s: System, item: Item)
    requires Joined(cfg, sup, s) && Enabled(s, DialerMove(Receive(item)))
    ensures DialerReceive(cfg, s.dialer.control, item).Done? ==> s.dialer.buffer == []
  {
    if s.dialer.control.Settled? && DialerReceive(cfg, s.dialer.control, item).Done? {
      AnsweredDialerIsDrained(cfg, sup, s);
    }
  }

  lemma ListenerMoveKeepsJoined(cfg: Config, sup: seq<Name>, s: System, step: Step)
    requires Joined(cfg, sup, s) && Enabled(s, ListenerMove(step))
    ensures Joined(cfg, sup, Next(cfg, sup, s, ListenerMove(step)))
  {
    ListenerKeepsInv(sup, s.listener, step);
    match step
    case Drain => WireAllPrefix(s.listener.sent, s.listener.sent + [s.listener.buffer[0]]);
    case Receive(_) => ReadOne(s.listener.read, s.dialer.sent);
    case _ =>
  }

  lemma JoinedKept(cfg: Config, sup: seq<Name>, s: System, move: Move)
    requires Joined(cfg, sup, s) && Enabled(s, move)
    ensures Joined(cfg, sup, Next(cfg, sup, s, move))
  {
    match move
    case DialerMove(step) => DialerMoveKeepsJoined(cfg, sup, s, step);
    case ListenerMove(step) => ListenerMoveKeepsJoined(cfg, sup, s, step);
  }

  lemma InitJoined(cfg: Config, sup: seq<Name>)
    ensures Joined(cfg, sup, INIT)
  {
  }

  lemma RunKeepsJoined(cfg: Config, sup: seq<Name>, states: seq<System>, moves: seq<Move>, i: nat)
    requires IsRun(cfg, sup, states, moves) && i < |states|
    ensures Joined(cfg, sup, states[i])
  {
    InitJoined(cfg, sup);
    forall s, move, t | Joined(cfg, sup, s) && LeadsTo(cfg, sup, s, move, t) ensures Joined(cfg, sup, t) {
      JoinedKept(cfg, sup, s, move);
    }
    RunInduction(cfg, sup, states, moves, i, s => Joined(cfg, sup, s));
  }

  /** Against this listener, whatever the names, a dialer that agrees has nothing left in its
      buffer, even if it settled early and then could not write. */
  lemma AgreedDialerIsDrained(cfg: Config, sup: seq<Name>, s: System)
    requires Reachable(cfg, sup, s) && s.dialer.control.Done? && s.dialer.control.outcome.Agreed?
    ensures s.dialer.buffer == []
  {
    var states, moves :| IsRun(cfg, sup, states, moves) && states[|moves|] == s;
    RunKeepsJoined(cfg, sup, states, moves, |moves|);
    AgreedDialerHasRead(cfg, s.dialer);
  }

  lemma AgreedDialerHasRead(cfg: Config, d: Side<DialerControl>)
    requires DialerInv(cfg, d) && d.control.Done? && d.control.outcome.Agreed?
    ensures d.read != [] && !d.eof
  {
  }

  // ----------------------------------------------------------- one conversation

  /** Neither side ever hears anything outside the one conversation they can have. */
  ghost predicate Inv(cfg: Config, sup: seq<Name>, s: System) {
    && Joined(cfg, sup, s)
    && s.dialer.read <= WireAll(Heard(cfg, sup))
    && s.listener.read <= WireAll(Said(cfg, sup))
    && (s.dialer.eof ==> && ListenerClosed(s.listener) && !s.listener.eof
                         && s.dialer.read == WireAll(s.listener.sent) && s.dialer.buffer == [])
    && (s.listener.eof ==> DialerClosed(s.dialer) && !s.dialer.eof && s.listener.read == WireAll(s.dialer.sent))
  }

  lemma ListenerTotalBound(cfg: Config, sup: seq<Name>, s: System)
    requires Announced(sup) && Inv(cfg, sup, s)
    ensures Total(s.listener) <= Heard(cfg, sup)
    ensures s.listener.control.Ended? && !s.listener.eof ==>
              && s.listener.sent == Heard(cfg, sup)
              && s.listener.control.outcome == ListenerOutcome(cfg, sup)
              && Serve(sup, WireAll(Said(cfg, sup))).stage == Finished(ListenerOutcome(cfg, sup))
  {
    ConversationIsFixpoint(cfg, sup);
    ServeOfPrefix(sup, s.listener.read, WireAll(Said(cfg, sup)));
    ListenerQueuesWithinServe(sup, s.listener);
  }

  lemma DialerTotalBound(cfg: Config, sup: seq<Name>, s: System)
    requires Announced(sup) && Inv(cfg, sup, s)
    ensures Total(s.dialer) <= Said(cfg, sup)
    ensures s.dialer.control.Done? ==>
              Total(s.dialer) == Said(cfg, sup) && s.dialer.control.outcome == DialerOutcome(cfg, sup)
    ensures s.dialer.control.Done? && !s.dialer.eof ==>
              Run(cfg, WireAll(Heard(cfg, sup))).stage == Over(DialerOutcome(cfg, sup))
  {
    ConversationIsFixpoint(cfg, sup);
    RunOfPrefix(cfg, s.dialer.read, WireAll(Heard(cfg, sup)));
    DialerQueuesWithinRun(cfg, s.dialer);
    if s.dialer.eof {
      ListenerTotalBound(cfg, sup, s);
    }
  }

  /** A listener that hangs up has been told everything. */
  lemma ClosedListenerWasTold(cfg: Config, sup: seq<Name>, s: System)
    requires Announced(sup) && Inv(cfg, sup, s) && ListenerClosed(s.listener) && !s.listener.eof
    ensures |s.listener.read| == |Said(cfg, sup)|
  {
    ListenerTotalBound(cfg, sup, s);
    ListenerQueuesWithinServe(sup, s.listener);
    UnansweredEnd(sup, s.listener.read);
    ConversationIsFixpoint(cfg, sup);
  }

  lemma InvKept(cfg: Config, sup: seq<Name>, s: System, move: Move)
    requires Announced(sup) && Inv(cfg, sup, s) && Enabled(s, move)
    ensures Inv(cfg, sup, Next(cfg, sup, s, move))
  {
    match move
    case DialerMove(step) => DialerMoveKeepsInv(cfg, sup, s, step);
    case ListenerMove(step) => ListenerMoveKeepsInv(cfg, sup, s, step);
  }

  lemma DialerMoveKeepsInv(cfg: Config, sup: seq<Name>, s: System, step: Step)
    requires Announced(sup) && Inv(cfg, sup, s) && Enabled(s, DialerMove(step))
    ensures Inv(cfg, sup, Next(cfg, sup, s, DialerMove(step)))
  {
    DialerMoveKeepsJoined(cfg, sup, s, step);
    ListenerTotalBound(cfg, sup, s);
    if step.Receive? {
      ReadOne(s.dialer.read, s.listener.sent);
      WireAllPrefix(s.listener.sent, Heard(cfg, sup));
    } else if step.ReceiveEof? {
      Seqs.PrefixOrEqual(s.dialer.read, WireAll(s.listener.sent));
      EndIsReadDrained(cfg, sup, s);
    }
  }

  lemma EndIsReadDrained(cfg: Config, sup: seq<Name>, s: System)
    requires Announced(sup) && Inv(cfg, sup, s) && Enabled(s, DialerMove(ReceiveEof))
    ensures s.dialer.buffer == [] && !s.listener.eof
  {
    ClosedListenerWasTold(cfg, sup, s);
    DialerTotalBound(cfg, sup, s);
    assert |Total(s.dialer)| <= |Said(cfg, sup)| <= |s.dialer.sent|;
  }

  lemma ListenerMoveKeepsInv(cfg: Config, sup: seq<Name>, s: System, step: Step)
    requires Announced(sup) && Inv(cfg, sup, s) && Enabled(s, ListenerMove(step))
    ensures Inv(cfg, sup, Next(cfg, sup, s, ListenerMove(step)))
  {
    ListenerMoveKeepsJoined(cfg, sup, s, step);
    if step.Receive? {
      ListenerHearsConversation(cfg, sup, s);
    } else if step.ReceiveEof? {
      Seqs.PrefixOrEqual(s.listener.read, WireAll(s.dialer.sent));
    }
  }

  lemma ListenerHearsConversation(cfg: Config, sup: seq<Name>, s: System)
    requires Announced(sup) && Inv(cfg, sup, s) && |s.listener.read| < |s.dialer.sent|
    ensures s.listener.read + [Wire(s.dialer.sent[|s.listener.read|])] <= WireAll(Said(cfg, sup))
  {
    DialerTotalBound(cfg, sup, s);
    ReadOne(s.listener.read, s.dialer.sent);
    WireAllPrefix(s.dialer.sent, Said(cfg, sup));
  }

  lemma InitInv(cfg: Config, sup: seq<Name>)
    ensures Inv(cfg, sup, INIT)
  {
  }

  lemma RunKeepsInv(cfg: Config, sup: seq<Name>, states: seq<System>, moves: seq<Move>, i: nat)
    requires Announced(sup) && IsRun(cfg, sup, states, moves) && i < |states|
    ensures Inv(cfg, sup, states[i])
  {
    InitInv(cfg, sup);
    forall s, move, t | Inv(cfg, sup, s) && LeadsTo(cfg, sup, s, move, t) ensures Inv(cfg, sup, t) {
      InvKept(cfg, sup, s, move);
    }
    RunInduction(cfg, sup, states, moves, i, s => Inv(cfg, sup, s));
  }

  lemma ReachableInv(cfg: Config, sup: seq<Name>, s: System)
    requires Announced(sup) && Reachable(cfg, sup, s)
    ensures Inv(cfg, sup, s)
  {
    var states, moves :| IsRun(cfg, sup, states, moves) && states[|moves|] == s;
    RunKeepsInv(cfg, sup, states, moves, |moves|);
  }

  /** Agreement: whatever the interleaving, a side that has ended has ended as the two
      lists determine. */
  lemma Agreement(cfg: Config, sup: seq<Name>, s: System)
    requires Announced(sup) && Reachable(cfg, sup, s)
    ensures s.dialer.control.Done? ==> s.dialer.control.outcome == DialerOutcome(cfg, sup)
    ensures s.listener.control.Ended? ==> s.listener.control.outcome == ListenerOutcome(cfg, sup)
  {
    ReachableInv(cfg, sup, s);
    DialerTotalBound(cfg, sup, s);
    ListenerTotalBound(cfg, sup, s);
    ConversationIsFixpoint(cfg, sup);
  }

  // ------------------------------------------------------------------ progress

  /** The listener's side of the conversation has one header, at its beginning. */
  lemma {:induction false} RepliesHaveNoHeader(names: seq<Name>, sup: seq<Name>, i: nat)
    requires i < |Replies(names, sup)|
    ensures Wire(Replies(names, sup)[i]) != Good(Header)
  {
    var replies, more := Replies(names, sup), Replies(names[1..], sup);
    if i > 0 {
      assert replies == [NotAvailable] + more;
      assert replies[i] == more[i - 1];
      RepliesHaveNoHeader(names[1..], sup, i - 1);
    } else {
      ConstantsArrive();
      TellableArrives(names[0]);
    }
  }

  lemma HeardHasOneHeader(cfg: Config, sup: seq<Name>, i: nat)
    requires Announced(sup) && 0 < i < |Heard(cfg, sup)|
    ensures WireAll(Heard(cfg, sup))[i] != Good(Header)
  {
    assert WireAll(Heard(cfg, sup))[i] == Wire(Heard(cfg, sup)[i]);
    match cfg.strategy
    case Serial => SerialAnswersHaveNoHeader(cfg, sup, i);
    case Parallel => ListedAnswersHaveNoHeader(cfg, sup, i);
  }

  lemma SerialAnswersHaveNoHeader(cfg: Config, sup: seq<Name>, i: nat)
    requires cfg.strategy.Serial? && 0 < i < |Heard(cfg, sup)|
    ensures Wire(Heard(cfg, sup)[i]) != Good(Header)
  {
    var replies := Replies(cfg.names, sup);
    assert Heard(cfg, sup) == [Header] + replies;
    assert Heard(cfg, sup)[i] == replies[i - 1];
    RepliesHaveNoHeader(cfg.names, sup, i - 1);
  }

  lemma ListedAnswersHaveNoHeader(cfg: Config, sup: seq<Name>, i: nat)
    requires Announced(sup) && cfg.strategy.Parallel? && 0 < i < |Heard(cfg, sup)|
    ensures Wire(Heard(cfg, sup)[i]) != Good(Header)
  {
    if i == 1 {
      assert Heard(cfg, sup)[i] == Protocols(sup);
      ListArrives(sup);
    } else {
      var n := Choice(cfg.names, sup).value;
      assert Heard(cfg, sup)[i] == Protocol(n);
      ChoiceIsSendable(cfg.names, sup);
      TellableArrives(n);
    }
  }

  lemma {:induction false} CountAnswers(items: seq<Item>)
    requires forall i | 0 <= i < |items| :: items[i] != Good(Header)
    ensures Answers(items) == |items|
  {
    if items != [] {
      CountAnswers(items[1..]);
    }
  }

  /** If both sides are waiting, one of them has something left to read. */
  lemma NotBothStarved(cfg: Config, sup: seq<Name>, s: System)
    requires Announced(sup) && Inv(cfg, sup, s)
    requires DialerReads(s.dialer.control) && s.dialer.buffer == []
    requires ListenerReads(s.listener.control)
    ensures |s.dialer.read| < |s.listener.sent| || |s.listener.read| < |s.dialer.sent|
  {
    WaitingDialerTotal(cfg, s.dialer);
    ReadIsAnswers(cfg, sup, s.dialer.read);
    WaitingListenerHasAnswered(sup, s.listener);
  }

  lemma WaitingListenerHasAnswered(sup: seq<Name>, l: Side<ListenerControl>)
    requires ListenerInv(sup, l) && ListenerReads(l.control)
    ensures |l.sent| == |l.read|
  {
    WaitingListenerIsEven(sup, Listener(Negotiation.RecvHeader, []), l.read);
    assert |l.sent| == |Total(l)|;
  }

  lemma OneHeaderAtMost(items: seq<Item>)
    requires forall i | 0 < i < |items| :: items[i] != Good(Header)
    ensures |items| <= 1 + Answers(items)
  {
    if items != [] {
      CountAnswers(items[1..]);
    }
  }

  lemma ReadIsAnswers(cfg: Config, sup: seq<Name>, read: seq<Item>)
    requires Announced(sup) && read <= WireAll(Heard(cfg, sup))
    ensures |read| <= 1 + Answers(read)
  {
    forall i | 0 < i < |read| ensures read[i] != Good(Header) {
      HeardHasOneHeader(cfg, sup, i);
    }
    OneHeaderAtMost(read);
  }

  /** Progress: as long as not both sides have ended, some side can move. In particular
      no message is ever stuck in a write buffer while both sides wait. */
  lemma SomeMoveIsEnabled(cfg: Config, sup: seq<Name>, s: System) returns (move: Move)
    requires Announced(sup) && Inv(cfg, sup, s) && !BothDone(s)
    ensures Enabled(s, move)
  {
    var d, l := s.dialer, s.listener;
    DialerTotalBound(cfg, sup, s);
    ListenerTotalBound(cfg, sup, s);
    if DialerSends(d.control) {
      return DialerMove(Act);
    } else if d.buffer != [] && (DialerFlushes(d.control) || d.control.Settled?) {
      return DialerMove(Drain);
    } else if DialerFlushes(d.control) {
      return DialerMove(Flushed);
    } else if ListenerSends(l.control) {
      return ListenerMove(Act);
    } else if l.control.Flush? {
      return ListenerMove(if l.buffer != [] then Drain else Flushed);
    } else if DialerReads(d.control) && |d.read| < |l.sent| {
      return DialerMove(Receive(Wire(l.sent[|d.read|])));
    } else if ListenerReads(l.control) && |l.read| < |d.sent| {
      return ListenerMove(Receive(Wire(d.sent[|l.read|])));
    } else if DialerReads(d.control) && ListenerClosed(l) {
      return DialerMove(ReceiveEof);
    } else if ListenerReads(l.control) && DialerClosed(d) {
      return ListenerMove(ReceiveEof);
    }
    if DialerReads(d.control) && ListenerReads(l.control) {
      NotBothStarved(cfg, sup, s);
    } else if ListenerReads(l.control) {
      AgreedDialerIsHeard(cfg, sup, s);
    } else {
      AgreedListenerIsHeard(cfg, sup, s);
    }
    assert false;
  }

  lemma AgreedDialerIsHeard(cfg: Config, sup: seq<Name>, s: System)
    requires Announced(sup) && Inv(cfg, sup, s)
    requires s.dialer.control.Done? && s.dialer.control.outcome.Agreed?
    requires ListenerReads(s.listener.control)
    ensures |s.listener.read| < |s.dialer.sent|
  {
    var d, l := s.dialer, s.listener;
    DialerTotalBound(cfg, sup, s);
    ConversationIsFixpoint(cfg, sup);
    AgreedDialerHasRead(cfg, d);
    assert d.sent == Said(cfg, sup);
    Seqs.PrefixOrEqual(l.read, WireAll(d.sent));
  }

  lemma AgreedListenerIsHeard(cfg: Config, sup: seq<Name>, s: System)
    requires Announced(sup) && Inv(cfg, sup, s)
    requires s.listener.control.Ended? && s.listener.control.outcome.Agreed?
    requires DialerReads(s.dialer.control)
    ensures |s.dialer.read| < |s.listener.sent|
  {
    var d, l := s.dialer, s.listener;
    ListenerTotalBound(cfg, sup, s);
    ConversationIsFixpoint(cfg, sup);
    Seqs.PrefixOrEqual(d.read, WireAll(l.sent));
  }

  function DialerRank(c: DialerControl): nat {
    if c.Done? then 0 else if DialerFlushes(c) then 2 else 1
  }

  function ListenerRank(c: ListenerControl): nat {
    if c.Ended? then 0 else if c.Flush? then 2 else 1
  }

  /** The work left: messages of the conversation still to be queued, handed to the stream
      and read on either side, and the rank of the control states. */
  function WorkLeft(cfg: Config, sup: seq<Name>, s: System): int {
    var said, heard := |Said(cfg, sup)|, |Heard(cfg, sup)|;
    3 * (3 * said - |Total(s.dialer)| - |s.dialer.sent| - |s.listener.read|
         + 3 * heard - |Total(s.listener)| - |s.listener.sent| - |s.dialer.read|)
    + DialerRank(s.dialer.control) + ListenerRank(s.listener.control)
  }

  lemma WorkLeftIsNat(cfg: Config, sup: seq<Name>, s: System)
    requires Announced(sup) && Inv(cfg, sup, s)
    ensures WorkLeft(cfg, sup, s) >= 0
  {
    DialerTotalBound(cfg, sup, s);
    ListenerTotalBound(cfg, sup, s);
  }

  /** Every move uses up some of the work. */
  lemma EveryMoveWorks(cfg: Config, sup: seq<Name>, s: System, move: Move)
    requires Enabled(s, move)
    ensures WorkLeft(cfg, sup, Next(cfg, sup, s, move)) < WorkLeft(cfg, sup, s)
  {
    match move
    case DialerMove(step) => DialerMoveWorks(cfg, s.dialer, step);
    case ListenerMove(step) => ListenerMoveWorks(sup, s.listener, step);
  }

  lemma DialerMoveWorks(cfg: Config, d: Side<DialerControl>, step: Step)
    requires DialerEnabled(d, step)
    ensures var d' := DialerStep(cfg, d, step);
            3 * (|Total(d)| + |d.sent| + |d.read|) - DialerRank(d.control)
            < 3 * (|Total(d')| + |d'.sent| + |d'.read|) - DialerRank(d'.control)
  {
  }

  lemma ListenerMoveWorks(sup: seq<Name>, l: Side<ListenerControl>, step: Step)
    requires ListenerEnabled(l, step)
    ensures var l' := ListenerStep(sup, l, step);
            3 * (|Total(l)| + |l.sent| + |l.read|) - ListenerRank(l.control)
            < 3 * (|Total(l')| + |l'.sent| + |l'.read|) - ListenerRank(l'.control)
  {
  }

  lemma {:induction false} RunCountsDown(
    cfg: Config, sup: seq<Name>, states: seq<System>, moves: seq<Move>, i: nat, work: System -> int)
    requires IsRun(cfg, sup, states, moves) && i < |states|
    requires forall s, move, t | LeadsTo(cfg, sup, s, move, t) :: work(t) < work(s)
    ensures i + work(states[i]) <= work(INIT)
  {
    if i > 0 {
      RunCountsDown(cfg, sup, states, moves, i - 1, work);
      assert LeadsTo(cfg, sup, states[i - 1], moves[i - 1], states[i]);
    }
  }

  lemma RunUsesWork(cfg: Config, sup: seq<Name>, states: seq<System>, moves: seq<Move>, i: nat)
    requires IsRun(cfg, sup, states, moves) && i < |states|
    ensures i + WorkLeft(cfg, sup, states[i]) <= WorkLeft(cfg, sup, INIT)
  {
    forall s, move, t | LeadsTo(cfg, sup, s, move, t) ensures WorkLeft(cfg, sup, t) < WorkLeft(cfg, sup, s) {
      EveryMoveWorks(cfg, sup, s, move);
    }
    RunCountsDown(cfg, sup, states, moves, i, s => WorkLeft(cfg, sup, s));
  }

  /** Termination: no run is longer than the work of the conversation. */
  lemma RunsAreBounded(cfg: Config, sup: seq<Name>, states: seq<System>, moves: seq<Move>)
    requires Announced(sup) && IsRun(cfg, sup, states, moves)
    ensures |moves| <= 9 * (|Said(cfg, sup)| + |Heard(cfg, sup)|) + 2
  {
    RunUsesWork(cfg, sup, states, moves, |moves|);
    RunKeepsInv(cfg, sup, states, moves, |moves|);
    WorkLeftIsNat(cfg, sup, states[|moves|]);
  }

  /** A run that cannot be extended has brought both sides to their outcomes. */
  lemma MaximalRunsAgree(cfg: Config, sup: seq<Name>, s: System)
    requires Announced(sup) && Reachable(cfg, sup, s)
    requires forall move :: !Enabled(s, move)
    ensures s.dialer.control == Done(DialerOutcome(cfg, sup))
    ensures s.listener.control == Ended(ListenerOutcome(cfg, sup))
  {
    ReachableInv(cfg, sup, s);
    if !BothDone(s) {
      var move := SomeMoveIsEnabled(cfg, sup, s);
    }
    Agreement(cfg, sup, s);
  }

  lemma ReachesOneMore(cfg: Config, sup: seq<Name>, s: System, move: Move)
    requires Reachable(cfg, sup, s) && Enabled(s, move)
    ensures Reachable(cfg, sup, Next(cfg, sup, s, move))
  {
    var states, moves :| IsRun(cfg, sup, states, moves) && states[|moves|] == s;
    var next := Next(cfg, sup, s, move);
    assert LeadsTo(cfg, sup, s, move, next);
    RunGoesOn(cfg, sup, states, moves, move, next);
    assert (states + [next])[|moves + [move]|] == next;
  }

  lemma RunGoesOn(cfg: Config, sup: seq<Name>, states: seq<System>, moves: seq<Move>, move: Move, next: System)
    requires IsRun(cfg, sup, states, moves) && LeadsTo(cfg, sup, states[|moves|], move, next)
    ensures IsRun(cfg, sup, states + [next], moves + [move])
  {
    var states', moves' := states + [next], moves + [move];
    forall i | 0 <= i < |moves'| ensures LeadsTo(cfg, sup, states'[i], moves'[i], states'[i + 1]) {
      if i < |moves| {
        assert moves'[i] == moves[i] && states'[i] == states[i] && states'[i + 1] == states[i + 1];
      } else {
        assert moves'[i] == move && states'[i] == states[i] && states'[i + 1] == next;
      }
    }
  }

  /** Every run can be brought to its end. */
  lemma {:induction false} RunsCanFinish(cfg: Config, sup: seq<Name>, s: System) returns (f: System)
    requires Announced(sup) && Reachable(cfg, sup, s)
    ensures Reachable(cfg, sup, f) && BothDone(f)
    decreases WorkLeft(cfg, sup, s)
  {
    f := s;
    if !BothDone(s) {
      ReachableInv(cfg, sup, s);
      WorkLeftIsNat(cfg, sup, s);
      var move := SomeMoveIsEnabled(cfg, sup, s);
      ReachesOneMore(cfg, sup, s, move);
      EveryMoveWorks(cfg, sup, s, move);
      f := RunsCanFinish(cfg, sup, Next(cfg, sup, s, move));
    }
  }

  lemma InitIsReachable(cfg: Config, sup: seq<Name>)
    ensures Reachable(cfg, sup, INIT)
  {
    var states, moves: seq<Move> := [INIT], [];
    assert IsRun(cfg, sup, states, moves) && states[|moves|] == INIT;
  }
}
