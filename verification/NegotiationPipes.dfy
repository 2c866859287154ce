/** A dialer and a listener, as objects, joined by two byte streams. */
module NegotiationPipes {
  import opened Varint
  import opened FrameGrammar
  import opened LengthDelimitedIo
  import opened Messages
  import opened MessageStream
  import opened Negotiation
  import opened NegotiationRuns
  import opened NegotiationTheorems
  import opened NegotiationLaws
  import opened Endpoints

  // ------------------------------------------------------ the only conversation

  /** Two streams of items in which each side is told at least what the other one says. */
  ghost predicate Consistent(cfg: Config, sup: seq<Name>, a: seq<Item>, b: seq<Item>) {
    WireAll(Run(cfg, a).out) <= b && WireAll(Serve(sup, b).out) <= a
  }

  /** A run so far has not got beyond what such streams hold. */
  ghost predicate Within(cfg: Config, sup: seq<Name>, a: seq<Item>, b: seq<Item>, s: System) {
    Joined(cfg, sup, s) && WireAll(s.dialer.sent) <= b && WireAll(s.listener.sent) <= a
  }

  lemma WithinKept(cfg: Config, sup: seq<Name>, a: seq<Item>, b: seq<Item>, s: System, move: Move)
    requires Consistent(cfg, sup, a, b) && Within(cfg, sup, a, b, s) && Enabled(s, move)
    ensures Within(cfg, sup, a, b, Next(cfg, sup, s, move))
  {
    JoinedKept(cfg, sup, s, move);
    var t := Next(cfg, sup, s, move);
    if move.DialerMove? {
      DialerSaysWithin(cfg, t.dialer, a);
    } else {
      ListenerSaysWithin(sup, t.listener, b);
    }
  }

  lemma DialerSaysWithin(cfg: Config, d: Side<DialerControl>, a: seq<Item>)
    requires DialerInv(cfg, d) && d.read <= a
    ensures WireAll(d.sent) <= WireAll(Run(cfg, a).out)
  {
    DialerQueuesWithinRun(cfg, d);
    RunOfPrefix(cfg, d.read, a);
    assert d.sent <= Total(d);
    WireAllPrefix(d.sent, Run(cfg, a).out);
  }

  lemma ListenerSaysWithin(sup: seq<Name>, l: Side<ListenerControl>, b: seq<Item>)
    requires ListenerInv(sup, l) && l.read <= b
    ensures WireAll(l.sent) <= WireAll(Serve(sup, b).out)
  {
    ListenerQueuesWithinServe(sup, l);
    ServeOfPrefix(sup, l.read, b);
    assert l.sent <= Total(l);
    WireAllPrefix(l.sent, Serve(sup, b).out);
  }

  /** Consistent streams begin with the one conversation: there is no other way to satisfy
      both sides. */
  lemma OnlyConversation(cfg: Config, sup: seq<Name>, a: seq<Item>, b: seq<Item>)
    requires Announced(sup) && Consistent(cfg, sup, a, b) && !Start(cfg).stage.Over?
    ensures WireAll(Heard(cfg, sup)) <= a && WireAll(Said(cfg, sup)) <= b
  {
    var f := FinishedRun(cfg, sup);
    TranscriptIsFixed(cfg, sup, f);
    var states, moves :| IsRun(cfg, sup, states, moves) && states[|moves|] == f;
    InitJoined(cfg, sup);
    forall s, move, t | Within(cfg, sup, a, b, s) && LeadsTo(cfg, sup, s, move, t) ensures Within(cfg, sup, a, b, t) {
      WithinKept(cfg, sup, a, b, s, move);
    }
    RunInduction(cfg, sup, states, moves, |moves|, s => Within(cfg, sup, a, b, s));
  }

  lemma DialerAgrees(cfg: Config, sup: seq<Name>, a: seq<Item>)
    requires Announced(sup) && WireAll(Heard(cfg, sup)) <= a
    requires a == WireAll(Heard(cfg, sup)) || Run(cfg, WireAll(Heard(cfg, sup))).stage.Over?
    ensures AtEof(Run(cfg, a).stage) == DialerOutcome(cfg, sup) && Run(cfg, a).out == Said(cfg, sup)
  {
    ConversationIsFixpoint(cfg, sup);
    RunOfPrefix(cfg, WireAll(Heard(cfg, sup)), a);
  }

  lemma ListenerAgrees(cfg: Config, sup: seq<Name>, b: seq<Item>)
    requires Announced(sup) && WireAll(Said(cfg, sup)) <= b
    requires b == WireAll(Said(cfg, sup)) || Serve(sup, WireAll(Said(cfg, sup))).stage.Finished?
    ensures ListenerAtEof(Serve(sup, b).stage) == ListenerOutcome(cfg, sup) && Serve(sup, b).out == Heard(cfg, sup)
  {
    ConversationIsFixpoint(cfg, sup);
    ServeOfPrefix(sup, WireAll(Said(cfg, sup)), b);
  }

  /** Two sides whose streams are exactly what the other one says end as the conversation
      does. What follows after all has been said, early or late, makes no difference to an
      agreement. */
  lemma StreamsAgree(cfg: Config, sup: seq<Name>, x: seq<Message>, early: seq<Item>, y: seq<Message>, late: seq<Item>,
                     a: seq<Item>, b: seq<Item>)
    requires Announced(sup) && !Start(cfg).stage.Over?
    requires a == WireAll(y) + late && b == WireAll(x) + early && x == Run(cfg, a).out && y == Serve(sup, b).out
    requires late != [] ==> ListenerAtEof(Serve(sup, b).stage).Agreed?
    ensures AtEof(Run(cfg, a).stage) == DialerOutcome(cfg, sup) && x == Said(cfg, sup)
    ensures b == WireAll(Said(cfg, sup)) + early
    ensures early == [] || DialerOutcome(cfg, sup).Agreed? ==>
              ListenerAtEof(Serve(sup, b).stage) == ListenerOutcome(cfg, sup) && y == Heard(cfg, sup)
  {
    OnlyConversation(cfg, sup, a, b);
    ConversationIsFixpoint(cfg, sup);
    if Run(cfg, WireAll(Heard(cfg, sup))).stage.Over? {
      DialerAgrees(cfg, sup, a);
      if early == [] || DialerOutcome(cfg, sup).Agreed? {
        ListenerAgrees(cfg, sup, b);
      }
    } else {
      ListenerAgrees(cfg, sup, b);
      assert late == [] && a == WireAll(y);
      DialerAgrees(cfg, sup, a);
    }
  }

  // ------------------------------------------------------------ where reading stops

  lemma EarlierIsPrefix<T>(x: seq<T>, y: seq<T>, all: seq<T>)
    requires x <= all && y <= all && |x| <= |y|
    ensures x <= y
  {
  }

  lemma OverByThen(cfg: Config, heard: seq<Item>, a: seq<Item>, read: seq<Item>)
    requires heard <= a && read <= a && JustOver(cfg, read) && Run(cfg, heard).stage.Over?
    ensures |read| <= |heard|
  {
    if |read| > |heard| {
      EarlierIsPrefix(heard, read[..|read| - 1], a);
      RunOfPrefix(cfg, heard, read[..|read| - 1]);
    }
  }

  lemma FinishedByThen(sup: seq<Name>, said: seq<Item>, b: seq<Item>, read: seq<Item>)
    requires said <= b && read <= b && JustFinished(sup, read) && Serve(sup, said).stage.Finished?
    ensures |read| <= |said|
  {
    if |read| > |said| {
      EarlierIsPrefix(said, read[..|read| - 1], b);
      ServeOfPrefix(sup, said, read[..|read| - 1]);
    }
  }

  /** A dialer that was greeted and is over has read as much as it has said. */
  lemma {:induction false} EndingTakesAnswers(cfg: Config, read: seq<Item>)
    requires Run(cfg, read).stage.Over? && !Start(cfg).stage.Over? && (read != [] ==> read[0] == Good(Header))
    ensures |Run(cfg, read).out| <= |read|
    decreases |read|
  {
    var before, last := read[..|read| - 1], read[|read| - 1];
    assert read == before + [last];
    RunSnoc(cfg, before, last);
    if Run(cfg, before).stage.Over? {
      EndingTakesAnswers(cfg, before);
    } else {
      WaitingDialerIsAhead(cfg, Start(cfg), before);
      GreetedAnswers(before);
      assert before != [] ==> before[0] == read[0];
    }
  }

  lemma AgreeingTakesQuestions(sup: seq<Name>, read: seq<Item>)
    requires JustFinished(sup, read)
    ensures |Serve(sup, read).out| <= |read|
  {
    ListenerOnlyAnswers(sup, Listener(Negotiation.RecvHeader, []), read);
  }

  /** A dialer that stops at the item that makes it agree has read what it was to hear. */
  lemma DialerReadsAll(cfg: Config, sup: seq<Name>, a: seq<Item>, read: seq<Item>)
    requires Announced(sup) && WireAll(Heard(cfg, sup)) <= a && read <= a && JustOver(cfg, read)
    requires Run(cfg, read).stage.Over? && Run(cfg, read).stage.outcome.Agreed? && DialerOutcome(cfg, sup).Agreed?
    ensures |read| == |Heard(cfg, sup)|
  {
    var heard := WireAll(Heard(cfg, sup));
    ConversationIsFixpoint(cfg, sup);
    OverByThen(cfg, heard, a, read);
    EarlierIsPrefix(read, heard, a);
    RunOfPrefix(cfg, read, heard);
    StartsWithHeader(cfg, sup);
    RunGrows(cfg, Start(cfg), read);
    EndingTakesAnswers(cfg, read);
  }

  lemma StartsWithHeader(cfg: Config, sup: seq<Name>)
    ensures Heard(cfg, sup) != [] && WireAll(Heard(cfg, sup))[0] == Good(Header)
  {
    ConstantsArrive();
    assert Heard(cfg, sup)[0] == Header;
  }

  lemma ListenerReadsAll(cfg: Config, sup: seq<Name>, b: seq<Item>, read: seq<Item>)
    requires Announced(sup) && WireAll(Said(cfg, sup)) <= b && read <= b && JustFinished(sup, read)
    requires Serve(sup, read).stage.Finished? && DialerOutcome(cfg, sup).Agreed?
    ensures |read| == |Said(cfg, sup)|
  {
    var said := WireAll(Said(cfg, sup));
    ConversationIsFixpoint(cfg, sup);
    FinishedByThen(sup, said, b, read);
    EarlierIsPrefix(read, said, b);
    ServeOfPrefix(sup, read, said);
    AgreeingTakesQuestions(sup, read);
  }

  lemma AllIsRead(cfg: Config, sup: seq<Name>, x: seq<Message>, early: seq<Item>, y: seq<Message>, late: seq<Item>,
                  a: seq<Item>, b: seq<Item>, heard: seq<Item>, told: seq<Item>)
    requires Announced(sup) && !Start(cfg).stage.Over? && DialerOutcome(cfg, sup).Agreed?
    requires a == WireAll(y) + late && b == WireAll(x) + early && x == Run(cfg, a).out && y == Serve(sup, b).out
    requires late != [] ==> ListenerAtEof(Serve(sup, b).stage).Agreed?
    requires heard <= a && JustOver(cfg, heard) && Run(cfg, heard).stage == Over(DialerOutcome(cfg, sup))
    requires told <= b && JustFinished(sup, told) && Serve(sup, told).stage.Finished?
    ensures |heard| == |y| && |told| == |x|
  {
    StreamsAgree(cfg, sup, x, early, y, late, a, b);
    OnlyConversation(cfg, sup, a, b);
    DialerReadsAll(cfg, sup, a, heard);
    ListenerReadsAll(cfg, sup, b, told);
  }

  // ------------------------------------------------------------------- the objects

  lemma FramesFit(queued: seq<Message>)
    requires AllFit(Encodings(queued))
    ensures forall m | m in queued :: Sendable(m)
  {
    forall m | m in queued ensures Sendable(m) {
      var i :| 0 <= i < |queued| && queued[i] == m;
      assert Encodings(queued)[i] in Encodings(queued);
    }
  }

  /** What the remote reads of a writer with an empty buffer. */
  lemma WriterTells(io: MessageIO)
    requires io.WriterValid() && io.Drained()
    ensures io.ld.inner.written == EncodeStream(io.queued) + io.ld.direct
    ensures forall more: Bytes :: Items(EncodeStream(io.queued) + more) == WireAll(io.queued) + Items(more)
  {
    EncodeStreamIsEncodeAll(io.queued);
    FramesFit(io.queued);
    forall more: Bytes ensures Items(EncodeStream(io.queued) + more) == WireAll(io.queued) + Items(more) {
      ItemsOfSent(io.queued, more);
    }
  }

  /** Having read as many frames as were sent, a reader stands at what follows them. */
  lemma ReaderStands(io: MessageIO, sent: seq<Message>, more: Bytes)
    requires io.ReaderValid() && io.ld.AtBoundary() && |io.read| == |sent|
    requires AllFit(Encodings(sent)) && io.bytes == EncodeStream(sent) + more
    ensures io.ld.inner.incoming == more
  {
    EncodeStreamIsEncodeAll(sent);
    SameFrames(io.frames, io.ld.inner.incoming, Encodings(sent), more);
  }

  lemma NoItemsNoBytes(s: Bytes)
    ensures Items(s) == [] <==> s == []
  {
    NextItem(s);
  }

  /** A dialer and a listener have ended, and each has been sent what the other one has
      written: the dialer perhaps application data early, the listener perhaps some after it
      has agreed. */
  ghost predicate OverPipes(d: DialerSelect, l: ListenerSelect, late: Bytes)
    reads d, d.io, d.io.ld, d.io.ld.inner, l, l.io, l.io.ld, l.io.ld.inner
  {
    && d.Valid() && d.control.Done? && !d.broken
    && l.Valid() && l.control.Ended? && !l.broken
    && d.io.stream == Items(d.io.bytes) && d.io.bytes == l.io.ld.inner.written + late
    && l.io.stream == Items(l.io.bytes) && l.io.bytes == d.io.ld.inner.written
    && (late != [] ==> l.control.outcome.Agreed?)
  }

  // ------------------------------------------- an agreed dialer has written it all

  function Goods(items: seq<Item>): nat {
    if items == [] then 0 else (if items[0].Good? then 1 else 0) + Goods(items[1..])
  }

  lemma {:induction false} GoodsOfPrefix(a: seq<Item>, b: seq<Item>)
    requires a <= b
    ensures Goods(a) <= Goods(b)
  {
    if a != [] {
      GoodsOfPrefix(a[1..], b[1..]);
    }
  }

  /** A stream that breaks off holds fewer messages than were to be sent. */
  lemma {:induction false} BrokenOffHoldsFewer(frames: seq<Bytes>, s: Bytes)
    requires AllFit(frames) && s < EncodeAll(frames)
    ensures Goods(Items(s)) < |frames|
  {
    var first, rest := EncodeFrame(frames[0]), EncodeAll(frames[1..]);
    if |s| < |first| {
      assert s < first;
      CutShortExactlyInsideAFrame(s);
      NextItem(s);
    } else {
      assert s == first + s[|first|..] && s[|first|..] < rest;
      ItemsStep(frames[0], s[|first|..]);
      BrokenOffHoldsFewer(frames[1..], s[|first|..]);
    }
  }

  lemma {:induction false} OnlyGoodIsAnswered(sup: seq<Name>, l: Listener, items: seq<Item>)
    ensures |ServeFrom(sup, l, items).out| <= |l.out| + Goods(items)
    decreases |items|
  {
    if items != [] {
      OnlyGoodIsAnswered(sup, Answer(sup, l, items[0]), items[1..]);
    }
  }

  /** A name that was read can be told. */
  lemma {:induction false} ReadNamesArrive(s: Bytes, n: Name)
    requires Good(Protocol(n)) in Items(s)
    ensures Wire(Protocol(n)) == Good(Protocol(n))
    decreases |s|
  {
    NextItem(s);
    var f := ParseFrame(s);
    if ItemOf(f.payload) == Good(Protocol(n)) {
      assert Messages.Encode(Protocol(n)) == f.payload;
    } else {
      ReadNamesArrive(f.rest, n);
    }
  }

  /** With the last thing it was told, the listener has agreed. */
  ghost predicate LastAgrees(sup: seq<Name>, told: seq<Item>) {
    JustFinished(sup, told) && Serve(sup, told).stage.Finished? && Serve(sup, told).stage.outcome.Agreed?
  }

  lemma AgreementIsConfirmed(sup: seq<Name>, told: seq<Item>)
    requires LastAgrees(sup, told)
    ensures var n, before := Serve(sup, told).stage.outcome.name, told[..|told| - 1];
            told[|told| - 1] == Good(Protocol(n)) && Serve(sup, told).out == Serve(sup, before).out + [Protocol(n)]
  {
    var before, last := told[..|told| - 1], told[|told| - 1];
    assert told == before + [last];
    ServeSnoc(sup, before, last);
  }

  lemma ConfirmationEnds(cfg: Config, ms: seq<Message>, n: Name)
    requires Wire(Protocol(n)) == Good(Protocol(n))
    ensures Run(cfg, WireAll(ms + [Protocol(n)])).stage.Over?
  {
    assert WireAll(ms + [Protocol(n)]) == WireAll(ms) + [Good(Protocol(n))];
    RunSnoc(cfg, WireAll(ms), Good(Protocol(n)));
  }

  /** Once the listener has agreed, what it has said ends the negotiation for the dialer. */
  lemma AgreementEnds(cfg: Config, sup: seq<Name>, s: Bytes, told: seq<Item>)
    requires told <= Items(s) && LastAgrees(sup, told)
    ensures Run(cfg, WireAll(Serve(sup, told).out)).stage.Over?
  {
    AgreementIsConfirmed(sup, told);
    var n := Serve(sup, told).stage.outcome.name;
    assert Items(s)[|told| - 1] == Good(Protocol(n));
    ReadNamesArrive(s, n);
    ConfirmationEnds(cfg, Serve(sup, told[..|told| - 1]).out, n);
  }

  /** A dialer that is over, by what it has heard of these streams, is so by what the listener
      has said, and the listener has said as much as it. */
  lemma OverTakesAnswers(
    cfg: Config, sup: seq<Name>, s: Bytes, told: seq<Item>, late: seq<Item>, a: seq<Item>, heard: seq<Item>)
    requires told <= Items(s) && a == WireAll(Serve(sup, told).out) + late && (late != [] ==> LastAgrees(sup, told))
    requires heard <= a && Run(cfg, heard).stage.Over? && !Start(cfg).stage.Over?
    ensures |Run(cfg, heard).out| <= |Serve(sup, told).out|
  {
    var y := WireAll(Serve(sup, told).out);
    if late != [] {
      AgreementEnds(cfg, sup, s, told);
      RunOfPrefix(cfg, y, a);
    } else {
      assert y == a;
    }
    RunOfPrefix(cfg, heard, a);
    ListenerOnlyAnswers(sup, Listener(Negotiation.RecvHeader, []), told);
    ConstantsArrive();
    EndingTakesAnswers(cfg, y);
  }

  lemma ListenerSpoke(d: DialerSelect, l: ListenerSelect, late: Bytes)
    requires OverPipes(d, l, late)
    ensures d.io.stream == WireAll(Serve(l.supported, l.io.read).out) + Items(late)
    ensures Items(late) != [] || l.control.outcome.Agreed? ==> LastAgrees(l.supported, l.io.read)
    ensures l.io.queued == Serve(l.supported, l.io.read).out && l.io.read <= Items(l.io.bytes)
  {
    ListenerTells(d, l, late);
    ListenerSays(l);
    NoItemsNoBytes(late);
    if l.control.outcome.Agreed? {
      ListenerEndsByReading(l);
    }
  }

  lemma DialerIsOver(d: DialerSelect)
    requires d.Valid() && d.control.Done? && !d.broken
    ensures !d.eof ==> Run(d.cfg, d.io.read) == Dialer(Over(d.control.outcome), d.io.queued)
    ensures d.eof ==> !Run(d.cfg, d.io.read).stage.Over? && d.io.read == d.io.stream
    ensures d.io.read <= d.io.stream
  {
    DoneMeansOver(d.cfg, d.control.outcome, d.io.queued, d.io.read, d.eof);
  }

  lemma DoneMeansOver(cfg: Config, o: Outcome, queued: seq<Message>, read: seq<Item>, eof: bool)
    requires DialerCore(cfg, Done(o), queued, read, eof)
    ensures if eof then !Run(cfg, read).stage.Over? else Run(cfg, read) == Dialer(Over(o), queued)
  {
  }

  lemma EndedWasAnswered(d: DialerSelect, l: ListenerSelect, late: Bytes)
    requires OverPipes(d, l, late) && !d.eof && !Start(d.cfg).stage.Over?
    ensures |d.io.queued| <= |l.io.queued|
  {
    ListenerSpoke(d, l, late);
    DialerIsOver(d);
    OverTakesAnswers(d.cfg, l.supported, l.io.bytes, l.io.read, Items(late), d.io.stream, d.io.read);
  }

  lemma ListenerSays(l: ListenerSelect)
    requires l.Valid() && l.control.Ended? && !l.broken
    ensures l.io.queued == Serve(l.supported, l.io.read).out
  {
  }

  lemma UndrainedIsBrokenOff(io: MessageIO)
    requires io.WriterValid() && !io.Drained()
    ensures AllFit(io.ld.frames) && io.ld.inner.written < EncodeAll(io.ld.frames) && |io.ld.frames| == |io.queued|
  {
    assert io.ld.direct == [] && EncodeAll(io.ld.frames) + [] == EncodeAll(io.ld.frames);
  }

  lemma BrokenOffIsUnanswered(sup: seq<Name>, frames: seq<Bytes>, s: Bytes, read: seq<Item>)
    requires AllFit(frames) && s < EncodeAll(frames) && read <= Items(s)
    ensures |Serve(sup, read).out| < |frames|
  {
    BrokenOffHoldsFewer(frames, s);
    OnlyGoodIsAnswered(sup, Listener(Negotiation.RecvHeader, []), read);
    GoodsOfPrefix(read, Items(s));
  }

  lemma UnwrittenIsUnanswered(d: DialerSelect, l: ListenerSelect, late: Bytes)
    requires OverPipes(d, l, late) && !d.io.Drained()
    ensures |l.io.queued| < |d.io.queued|
  {
    UndrainedIsBrokenOff(d.io);
    ListenerSays(l);
    BrokenOffIsUnanswered(l.supported, d.io.ld.frames, d.io.ld.inner.written, l.io.read);
  }

  /** Whatever the names are, and whatever has failed to be written meanwhile: a dialer that this
      listener has brought to an end, by an answer or by agreeing, has written everything, so
      that the assertion of an empty write buffer has not failed. */
  lemma EndedHasWrittenAll(d: DialerSelect, l: ListenerSelect, late: Bytes)
    requires OverPipes(d, l, late) && !d.eof && !Start(d.cfg).stage.Over?
    ensures d.io.Drained()
  {
    EndedWasAnswered(d, l, late);
    if !d.io.Drained() {
      UnwrittenIsUnanswered(d, l, late);
    }
  }

  lemma AgreedByAnAnswer(d: DialerSelect)
    requires d.Valid() && d.control.Done? && d.control.outcome.Agreed?
    ensures !d.eof && !Start(d.cfg).stage.Over? && (d.io.Drained() <==> !d.panicked)
  {
    RunGrows(d.cfg, Start(d.cfg), d.io.read);
  }

  lemma AgreedHasWrittenAll(d: DialerSelect, l: ListenerSelect, late: Bytes)
    requires OverPipes(d, l, late) && d.control.outcome.Agreed?
    ensures d.io.Drained() && !d.panicked
  {
    AgreedByAnAnswer(d);
    EndedHasWrittenAll(d, l, late);
  }

  /** A dialer that has made a proposal and has not written all of it ends with the error for
      a stream that is cut off, and the listener does not agree. */
  lemma UnwrittenIsCutOff(d: DialerSelect, l: ListenerSelect, late: Bytes)
    requires OverPipes(d, l, late) && !d.io.Drained() && !Start(d.cfg).stage.Over?
    ensures d.control == Done(CUT_OFF) && !l.control.outcome.Agreed?
  {
    if !d.eof {
      EndedHasWrittenAll(d, l, late);
    }
    if l.control.outcome.Agreed? {
      ListenerSpoke(d, l, late);
      AgreementEnds(d.cfg, l.supported, l.io.bytes, l.io.read);
      DialerIsOver(d);
      RunOfPrefix(d.cfg, WireAll(Serve(l.supported, l.io.read).out), d.io.read);
    }
  }

  // --------------------------------------------------------------- agreement over pipes

  /** Everything the dialer has queued is written, or it has failed before its first proposal. */
  ghost predicate Spoken(d: DialerSelect)
    reads d, d.io, d.io.ld
  {
    d.io.Drained() || Start(d.cfg).stage.Over?
  }

  lemma ListenerTells(d: DialerSelect, l: ListenerSelect, late: Bytes)
    requires OverPipes(d, l, late)
    ensures d.io.stream == WireAll(l.io.queued) + Items(late)
    ensures l.control.outcome == ListenerAtEof(Serve(l.supported, l.io.stream).stage)
    ensures l.io.queued == Serve(l.supported, l.io.stream).out
  {
    WriterTells(l.io);
    assert l.io.ld.direct == [] && EncodeStream(l.io.queued) + [] == EncodeStream(l.io.queued);
    ListenerVerdict(l.supported, l.control.outcome, l.io.queued, l.io.read, l.eof, l.io.stream);
  }

  lemma DialerTells(d: DialerSelect, l: ListenerSelect, late: Bytes)
    requires OverPipes(d, l, late) && Spoken(d)
    ensures !Start(d.cfg).stage.Over? ==> l.io.stream == WireAll(d.io.queued) + Items(d.io.ld.direct)
    ensures Start(d.cfg).stage.Over? ==> l.io.stream == [] && d.io.ld.direct == []
    ensures d.control.outcome == AtEof(Run(d.cfg, d.io.stream).stage) && d.io.queued == Run(d.cfg, d.io.stream).out
  {
    if Start(d.cfg).stage.Over? {
      NoItemsNoBytes([]);
    } else {
      WriterTells(d.io);
    }
    DialerVerdict(d.cfg, d.control.outcome, d.io.queued, d.io.read, d.eof, d.io.stream);
  }

  lemma UnstartedEnds(cfg: Config, sup: seq<Name>, a: seq<Item>)
    requires Announced(sup) && Start(cfg).stage.Over?
    ensures AtEof(Run(cfg, a).stage) == DialerOutcome(cfg, sup)
    ensures !DialerOutcome(cfg, sup).Agreed? && ListenerOutcome(cfg, sup) == ListenerAtEof(Serve(sup, []).stage)
  {
    ConversationIsFixpoint(cfg, sup);
    RunGrows(cfg, Start(cfg), a);
    RunGrows(cfg, Start(cfg), WireAll(Heard(cfg, sup)));
  }

  /** Agreement over two byte pipes: whatever the portioning of bytes and the interleaving of
      polls has been, the dialer ends as the two lists say. So does the listener, unless the
      dialer has written application data in the belief of an agreement that fails. A dialer
      that could not write all it had to say is cut off. */
  lemma PipesAgree(d: DialerSelect, l: ListenerSelect, late: Bytes)
    requires OverPipes(d, l, late)
    ensures Spoken(d) ==> d.control == Done(DialerOutcome(d.cfg, l.supported))
    ensures Spoken(d) && (d.io.ld.direct == [] || DialerOutcome(d.cfg, l.supported).Agreed?) ==>
              l.control == Ended(ListenerOutcome(d.cfg, l.supported))
    ensures !Spoken(d) ==> d.control == Done(CUT_OFF) && !l.control.outcome.Agreed?
  {
    if !Spoken(d) {
      UnwrittenIsCutOff(d, l, late);
    } else {
      SpokenAgree(d, l, late);
    }
  }

  lemma SpokenAgree(d: DialerSelect, l: ListenerSelect, late: Bytes)
    requires OverPipes(d, l, late) && Spoken(d)
    ensures d.control == Done(DialerOutcome(d.cfg, l.supported))
    ensures d.io.ld.direct == [] || DialerOutcome(d.cfg, l.supported).Agreed? ==>
              l.control == Ended(ListenerOutcome(d.cfg, l.supported))
  {
    ListenerTells(d, l, late);
    DialerTells(d, l, late);
    if Start(d.cfg).stage.Over? {
      UnstartedEnds(d.cfg, l.supported, d.io.stream);
    } else {
      NoItemsNoBytes(d.io.ld.direct);
      NoItemsNoBytes(late);
      StreamsAgree(d.cfg, l.supported, d.io.queued, Items(d.io.ld.direct), l.io.queued, Items(late),
                   d.io.stream, l.io.stream);
    }
  }

  lemma EarlyMeansDrained(d: DialerSelect)
    requires d.Valid() && d.control.Done? && !d.broken && d.io.ld.direct != []
    ensures d.io.Drained() && !Start(d.cfg).stage.Over?
  {
  }

  /** With early data, the listener ends as that data, taken for messages, makes it end. */
  lemma EarlyDataDecides(d: DialerSelect, l: ListenerSelect, late: Bytes)
    requires OverPipes(d, l, late) && d.io.ld.direct != []
    ensures var said := WireAll(Said(d.cfg, l.supported));
            l.control.outcome == ListenerAtEof(Serve(l.supported, said + Items(d.io.ld.direct)).stage)
  {
    EarlyMeansDrained(d);
    ListenerTells(d, l, late);
    DialerTells(d, l, late);
    NoItemsNoBytes(late);
    StreamsAgree(d.cfg, l.supported, d.io.queued, Items(d.io.ld.direct), l.io.queued, Items(late),
                 d.io.stream, l.io.stream);
  }

  lemma DialerEndsByReading(d: DialerSelect)
    requires d.Valid() && d.control.Done? && d.control.outcome.Agreed?
    ensures Run(d.cfg, d.io.read) == Dialer(Over(d.control.outcome), d.io.queued) && JustOver(d.cfg, d.io.read)
  {
    AgreedByReading(d.cfg, d.control.outcome, d.io.queued, d.io.read, d.eof);
  }

  lemma AgreedByReading(cfg: Config, o: Outcome, queued: seq<Message>, read: seq<Item>, eof: bool)
    requires DialerCore(cfg, Done(o), queued, read, eof) && o.Agreed?
    ensures Run(cfg, read) == Dialer(Over(o), queued)
  {
  }

  lemma ListenerEndsByReading(l: ListenerSelect)
    requires l.Valid() && l.control.Ended? && l.control.outcome.Agreed?
    ensures Serve(l.supported, l.io.read).stage == Finished(l.control.outcome) && JustFinished(l.supported, l.io.read)
  {
  }

  lemma BothHaveAgreed(d: DialerSelect, l: ListenerSelect, late: Bytes)
    requires OverPipes(d, l, late) && d.control.outcome.Agreed?
    ensures d.control == Done(DialerOutcome(d.cfg, l.supported)) && l.control == Ended(d.control.outcome)
    ensures d.io.Drained() && !d.panicked && !Start(d.cfg).stage.Over?
  {
    AgreedHasWrittenAll(d, l, late);
    AgreedByAnAnswer(d);
    SpokenAgree(d, l, late);
    ConversationIsFixpoint(d.cfg, l.supported);
  }

  lemma AgreedHaveReadAll(d: DialerSelect, l: ListenerSelect, late: Bytes)
    requires OverPipes(d, l, late) && d.control.outcome.Agreed?
    ensures |d.io.read| == |l.io.queued| && |l.io.read| == |d.io.queued|
  {
    BothHaveAgreed(d, l, late);
    ListenerTells(d, l, late);
    DialerTells(d, l, late);
    DialerEndsByReading(d);
    ListenerEndsByReading(l);
    AllIsRead(d.cfg, l.supported, d.io.queued, Items(d.io.ld.direct), l.io.queued, Items(late),
              d.io.stream, l.io.stream, d.io.read, l.io.read);
  }

  lemma ListenerStands(d: DialerSelect, l: ListenerSelect, late: Bytes)
    requires OverPipes(d, l, late) && l.control.outcome.Agreed? && d.io.Drained() && |l.io.read| == |d.io.queued|
    ensures l.io.ld.inner.incoming == d.io.ld.direct
  {
    WriterTells(d.io);
    ReaderStands(l.io, d.io.queued, d.io.ld.direct);
  }

  lemma DialerStands(d: DialerSelect, l: ListenerSelect, late: Bytes)
    requires OverPipes(d, l, late) && d.control.outcome.Agreed? && |d.io.read| == |l.io.queued|
    ensures d.io.ld.inner.incoming == late
  {
    WriterTells(l.io);
    assert l.io.ld.direct == [] && EncodeStream(l.io.queued) + [] == EncodeStream(l.io.queued);
    ReaderStands(d.io, l.io.queued, late);
  }

  /** When a dialer has agreed, so has the listener, on the name that the two lists say; the
      dialer has written everything, so that no assertion has failed; and each side's stream
      stands at the first byte of application data: the listener's at what the dialer has
      written early, the dialer's at what the listener has written since. */
  lemma HandedOverAtApplicationData(d: DialerSelect, l: ListenerSelect, late: Bytes)
    requires OverPipes(d, l, late) && d.control.outcome.Agreed?
    ensures d.control == Done(DialerOutcome(d.cfg, l.supported)) && l.control == Ended(d.control.outcome)
    ensures d.io.Drained() && !d.panicked
    ensures l.io.ld.inner.incoming == d.io.ld.direct && d.io.ld.inner.incoming == late
  {
    AgreedHaveReadAll(d, l, late);
    BothHaveAgreed(d, l, late);
    ListenerStands(d, l, late);
    DialerStands(d, l, late);
  }

  // ------------------------------------------------------------- the two at work

  datatype Turn = TurnOfDialer | EarlyData(data: Bytes) | TurnOfListener

  ghost predicate Apart(d: DialerSelect, l: ListenerSelect) {
    d.io != l.io && d.io.ld != l.io.ld && d.io.ld.inner != l.io.ld.inner
  }

  method PollDialer(d: DialerSelect, turn: Turn)
    requires d.Valid()
    modifies d, d.io, d.io.ld, d.io.ld.inner
    ensures d.Valid()
  {
    if d.control.Settled? {
      if turn.EarlyData? {
        var _ := d.WriteEarly(turn.data);
      } else {
        var _, _ := d.Complete();
      }
    } else if !d.control.Done? {
      var _ := d.Poll();
    }
  }

  twostate lemma ListenerUntouched(l: ListenerSelect)
    requires old(l.Valid()) && unchanged(l, l.io, l.io.ld, l.io.ld.inner)
    ensures l.Valid()
  {
  }

  twostate lemma DialerUntouched(d: DialerSelect)
    requires old(d.Valid()) && unchanged(d, d.io, d.io.ld, d.io.ld.inner)
    ensures d.Valid()
  {
  }

  method DialerTurn(d: DialerSelect, ghost l: ListenerSelect, turn: Turn)
    requires d.Valid() && l.Valid() && Apart(d, l)
    modifies d, d.io, d.io.ld, d.io.ld.inner
    ensures d.Valid() && l.Valid()
  {
    PollDialer(d, turn);
    ListenerUntouched(l);
  }

  method ListenerTurn(ghost d: DialerSelect, l: ListenerSelect)
    requires d.Valid() && l.Valid() && Apart(d, l) && !l.control.Ended?
    modifies l, l.io, l.io.ld, l.io.ld.inner
    ensures d.Valid() && l.Valid()
  {
    var _ := l.Poll();
    DialerUntouched(d);
  }

  /** Polls the two in any order. */
  method Converse(d: DialerSelect, l: ListenerSelect, turns: seq<Turn>)
    requires d.Valid() && l.Valid() && Apart(d, l)
    modifies d, d.io, d.io.ld, d.io.ld.inner, l, l.io, l.io.ld, l.io.ld.inner
    ensures d.Valid() && l.Valid()
  {
    for i := 0 to |turns|
      invariant d.Valid() && l.Valid()
    {
      if !turns[i].TurnOfListener? {
        DialerTurn(d, l, turns[i]);
      } else if !l.control.Ended? {
        ListenerTurn(d, l);
      }
    }
  }

  method Dial(cfg: Config, incoming: Bytes) returns (d: DialerSelect)
    ensures fresh(d) && fresh(d.io) && fresh(d.io.ld) && fresh(d.io.ld.inner) && d.Valid()
    ensures d.cfg == cfg && d.io.bytes == incoming && d.io.stream == Items(incoming)
  {
    var stream := new RawStream(incoming);
    var io := new MessageIO(stream);
    d := new DialerSelect(io, cfg);
  }

  method Listen(protocols: seq<Name>, incoming: Bytes) returns (l: ListenerSelect)
    ensures fresh(l) && fresh(l.io) && fresh(l.io.ld) && fresh(l.io.ld.inner) && l.Valid()
    ensures l.supported == Supported(protocols) && l.io.bytes == incoming && l.io.stream == Items(incoming)
  {
    var stream := new RawStream(incoming);
    var io := new MessageIO(stream);
    l := new ListenerSelect(io, protocols);
  }

  /** Both have ended, without an error of the streams other than nothing being written, and
      each has been sent what the other one has written. */
  ghost predicate Exchanged(d: DialerSelect, l: ListenerSelect)
    reads d, d.io, d.io.ld, d.io.ld.inner, l, l.io, l.io.ld, l.io.ld.inner
  {
    && d.control.Done? && !d.broken && d.io.bytes == l.io.ld.inner.written
    && l.control.Ended? && !l.broken && l.io.bytes == d.io.ld.inner.written
  }

  /** They have ended as the two lists say, or the dialer could not write all it had to say.
      After an agreement the streams stand at the application data. No assertion has failed. */
  ghost predicate AsPromised(d: DialerSelect, l: ListenerSelect)
    reads d, d.io, d.io.ld, d.io.ld.inner, l, l.io, l.io.ld, l.io.ld.inner
  {
    var o, p, early := DialerOutcome(d.cfg, l.supported), ListenerOutcome(d.cfg, l.supported), d.io.ld.direct;
    && d.control.Done? && l.control.Ended? && !d.panicked
    && (if Spoken(d) then d.control == Done(o) && (early == [] || o.Agreed? ==> l.control == Ended(p))
        else d.control == Done(CUT_OFF) && !l.control.outcome.Agreed?)
    && (d.control.outcome.Agreed? ==> l.io.ld.inner.incoming == early && d.io.ld.inner.incoming == [])
  }

  lemma ExchangedAsPromised(d: DialerSelect, l: ListenerSelect)
    requires d.Valid() && l.Valid() && Exchanged(d, l)
    requires d.io.stream == Items(d.io.bytes) && l.io.stream == Items(l.io.bytes)
    ensures AsPromised(d, l)
  {
    assert l.io.ld.inner.written + [] == l.io.ld.inner.written;
    PipesAgree(d, l, []);
    if d.control.outcome.Agreed? {
      HandedOverAtApplicationData(d, l, []);
    }
  }

  /** A whole negotiation from its beginning, for any names, any bytes that arrive, and any order
      of polls and early writes. */
  method Negotiate(cfg: Config, protocols: seq<Name>, toDialer: Bytes, toListener: Bytes, turns: seq<Turn>)
    returns (d: DialerSelect, l: ListenerSelect)
    ensures d.cfg == cfg && l.supported == Supported(protocols)
    ensures d.io.bytes == toDialer && l.io.bytes == toListener
    ensures Exchanged(d, l) ==> AsPromised(d, l)
  {
    d := Dial(cfg, toDialer);
    label Dialing:
    l := Listen(protocols, toListener);
    DialerUntouched@Dialing(d);
    Converse(d, l, turns);
    if Exchanged(d, l) {
      ExchangedAsPromised(d, l);
    }
  }
}
