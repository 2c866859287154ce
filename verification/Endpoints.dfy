/** The poll loops of the negotiating futures. Whatever the remote sends and however the
    bytes arrive, their results are those of the stream processors of `Negotiation`. */
module Endpoints {
  import opened Varint
  import opened FrameGrammar
  import opened LengthDelimitedIo
  import opened Messages
  import opened MessageStream
  import opened Negotiation
  import opened NegotiationRuns
  import opened Wrappers

  const BROKEN := Violation(StreamBroken)

  /** What the stream below has answered during a poll explains its result: it is not ready exactly
      if that was pending, once, and breaks exactly if that failed or took nothing. */
  predicate Explains(now: Tally, before: Tally, ready: bool, broken: bool) {
    && now.waits == before.waits + (if ready then 0 else 1)
    && (broken <==> now.faults + now.zeros > before.faults + before.zeros)
    && before.faults <= now.faults && before.zeros <= now.zeros
  }

  function DialerPriority(c: DialerControl): nat {
    if c.SendHeader? then 3 else if DialerSends(c) then 2 else if DialerFlushes(c) then 1 else 0
  }

  lemma SendingLeadsOn(cfg: Config, c: DialerControl)
    requires DialerSends(c)
    ensures match DialerSending(cfg, c)
            case Refuse(o) => !o.Agreed?
            case Push(m, next) =>
              && Sendable(m)
              && DialerPriority(next) < DialerPriority(c)
              && (next.Done? ==> !next.outcome.Agreed?)
              && !next.AwaitProtocol? && !next.RecvProtocols?
  {
  }

  lemma ReceivingLeadsOn(cfg: Config, c: DialerControl, item: Item)
    requires DialerReads(c)
    ensures var next := DialerReceive(cfg, c, item);
            && (c.Settled? ==> next.Settled? || next.Done?)
            && (!next.Done? || next.outcome.Agreed? ==> item.Good?)
            && !DialerFlushes(next) && !next.SendHeader?
            && (next.Settled? ==> c.Settled?)
  {
  }

  /** A verdict reached early, or at the end of the stream, is the verdict on the whole
      stream: it depends on what the remote sends and not on when it arrives. */
  lemma DialerVerdict(
    cfg: Config, o: Outcome, queued: seq<Message>, read: seq<Item>, eof: bool, stream: seq<Item>)
    requires DialerCore(cfg, Done(o), queued, read, eof)
    requires read <= stream && (eof ==> read == stream)
    ensures o == AtEof(Run(cfg, stream).stage) && queued == Run(cfg, stream).out
  {
    RunOfPrefix(cfg, read, stream);
  }

  lemma ListenerVerdict(
    sup: seq<Name>, o: Outcome, queued: seq<Message>, read: seq<Item>, eof: bool, stream: seq<Item>)
    requires ListenerCore(sup, Ended(o), queued, read, eof)
    requires read <= stream && (eof ==> read == stream)
    ensures o == ListenerAtEof(Serve(sup, stream).stage) && queued == Serve(sup, stream).out
  {
    ServeOfPrefix(sup, read, stream);
  }

  function FlushedTo(c: DialerControl): DialerControl {
    match c
    case FlushProtocol(name, rest) => AwaitProtocol(name, rest)
    case _ => RecvProtocols
  }

  lemma FlushingLeadsOn(cfg: Config, c: DialerControl, queued: seq<Message>, read: seq<Item>)
    requires DialerFlushes(c) && DialerCore(cfg, c, queued, read, false)
    ensures DialerCore(cfg, FlushedTo(c), queued, read, false)
    ensures DialerPriority(FlushedTo(c)) < DialerPriority(c)
  {
  }

  /** Before anything was read, only the header can be in front of a first proposal; a name
      refused then, or none to propose, is what the negotiation starts and ends with. */
  lemma FirstSending(cfg: Config, c: DialerControl, queued: seq<Message>)
    requires DialerSends(c) && DialerCore(cfg, c, queued, [], false)
    ensures match DialerSending(cfg, c)
            case Refuse(o) => Start(cfg).stage.Over?
            case Push(m, next) =>
              && (next.Done? ==> Start(cfg).stage.Over?)
              && (DialerSends(next) ==> c.SendHeader? && m == Header)
  {
    ConstantsArrive();
    if c.SendHeader? && cfg.names != [] {
      assert [cfg.names[0]] + cfg.names[1..] == cfg.names;
    }
  }

  lemma LaterSending(cfg: Config, c: DialerControl, queued: seq<Message>, read: seq<Item>)
    requires DialerSends(c) && DialerCore(cfg, c, queued, read, false) && read != []
    ensures DialerSending(cfg, c).Push? ==> var next := DialerSending(cfg, c).next; !next.Done? && !DialerSends(next)
  {
  }

  lemma ReadingMeansStarted(cfg: Config, c: DialerControl, queued: seq<Message>, read: seq<Item>)
    requires DialerReads(c) && DialerCore(cfg, c, queued, read, false)
    ensures !Start(cfg).stage.Over?
  {
    RunGrows(cfg, Start(cfg), read);
  }

  lemma ReadingIsNotOver(cfg: Config, c: DialerControl, queued: seq<Message>, read: seq<Item>)
    requires DialerReads(c) && DialerCore(cfg, c, queued, read, false)
    ensures !Run(cfg, read).stage.Over?
  {
  }

  /** `DialerSelectSeq` and `DialerSelectPar`, and the `Negotiated` stream that a dialer
      which settles early goes on with. The remaining names are part of the state. */
  class DialerSelect {
    const cfg: Config
    const io: MessageIO
    var control: DialerControl

    /** The assertion that the write buffer is empty has failed on completing an early
        settlement. */
    var panicked: bool

    /** Whether the end of the stream was read, and whether the stream below has failed. */
    ghost var eof: bool
    ghost var broken: bool

    ghost predicate NothingWritten()
      reads io.ld`direct, io.ld.inner`written
    {
      io.ld.inner.written == [] && io.ld.direct == []
    }

    /** What has been written when the dialer is, or comes, in this state. */
    ghost predicate Written(c: DialerControl)
      reads io`queued, io`read, io.ld`writeBuffer, io.ld`frames, io.ld`direct, io.ld`sinkDropped, io.ld`ready
      reads io.ld.inner`written
    {
      && io.WriterValid()
      && (c.AwaitProtocol? || c.RecvProtocols? ==> io.Drained())
      && (DialerSends(c) && io.read != [] ==> io.Drained())
      && (DialerSends(c) && io.read == [] ==>
            NothingWritten() && |io.ld.writeBuffer| < MAX_FRAME_SIZE && (c.SendHeader? ==> io.Drained()))
      && (!c.Done? ==> (io.ld.sinkDropped <==> c.Settled?))
      && (c.Done? ==> if Start(cfg).stage.Over? then NothingWritten() else io.Drained() || io.ld.sinkDropped)
    }

    ghost predicate Valid()
      reads this, io, io.ld, io.ld.inner
    {
      && io.read <= io.stream
      && (eof ==> io.read == io.stream)
      && (!control.Done? ==> io.Valid() && !broken)
      && (broken ==> control == Done(BROKEN))
      && (!broken ==> DialerCore(cfg, control, io.queued, io.read, eof) && Written(control))
      && (Start(cfg).stage.Over? ==> io.read == [] && !eof)
      && (control.Done? && control.outcome.Agreed? ==> JustOver(cfg, io.read))
      && (control.Done? && control.outcome.Agreed? ==>
            io.Valid() && io.ld.AtBoundary() && (panicked <==> !io.Drained()))
      && (panicked ==> control.Done? && control.outcome.Agreed?)
      && (eof && !broken && !io.Drained() ==> control == Done(CUT_OFF))
    }

    constructor (io: MessageIO, cfg: Config)
      requires io.Valid() && io.queued == [] && io.read == [] && io.Drained()
      requires io.ld.inner.written == [] && io.ld.direct == [] && !io.ld.sinkDropped
      ensures Valid() && control == SendHeader
      ensures this.io == io && this.cfg == cfg
    {
      this.io := io;
      this.cfg := cfg;
      control := SendHeader;
      panicked := false;
      eof := false;
      broken := false;
    }

    /** Runs until it is done, has settled, or is pending. Every result is the verdict on
        the items read; an agreement leaves nothing buffered in either direction. */
    method Poll() returns (ready: bool)
      requires Valid() && !control.Done? && !control.Settled?
      modifies this, io, io.ld, io.ld.inner
      ensures Valid() && Explains(io.ld.inner.tally, old(io.ld.inner.tally), ready, broken)
      ensures ready <==> control.Done? || control.Settled?
      ensures control.Done? && control.outcome.Agreed? ==> Released()
    {
      ready := true;
      while ready && !control.Done? && !control.Settled?
        invariant Valid() && Explains(io.ld.inner.tally, old(io.ld.inner.tally), ready, broken)
        invariant !ready ==> !control.Done? && !control.Settled?
        invariant control.Done? && control.outcome.Agreed? ==> Released()
        decreases ready && !control.Done?, |io.coming|, DialerPriority(control)
      {
        ready := Turn();
      }
    }

    method Turn() returns (ready: bool)
      requires Valid() && !control.Done? && !control.Settled?
      modifies this, io, io.ld, io.ld.inner
      ensures Valid() && Explains(io.ld.inner.tally, old(io.ld.inner.tally), ready, broken)
      ensures !ready ==> control == old(control)
      ensures ready && !control.Done? ==>
                || |io.coming| < old(|io.coming|)
                || (|io.coming| == old(|io.coming|) && DialerPriority(control) < old(DialerPriority(control)))
      ensures control.Done? && control.outcome.Agreed? ==> Released()
    {
      if DialerSends(control) {
        ready := TurnSend();
      } else if DialerFlushes(control) {
        ready := TurnFlush();
      } else {
        ready := TurnRead();
      }
    }

    /** `Negotiated::poll`: completes an early settlement. It goes on reading if flushing fails
        because nothing was written. If it then reads the confirmation, the assertion that
        the write buffer is empty fails exactly if flushing has left something in it. */
    method Complete() returns (ready: bool, flushed: Status)
      requires Valid() && control.Settled?
      modifies this, io, io.ld, io.ld.inner
      ensures Valid()
      ensures var now, before := io.ld.inner.tally, old(io.ld.inner.tally);
              && now.waits == before.waits + (if ready then 0 else 1)
              && (broken <==> now.faults > before.faults)
              && now.zeros == before.zeros + (if flushed.WriteZero? then 1 else 0)
      ensures flushed.Ready? ==> io.ld.inner.flushed == io.ld.inner.written
      ensures ready <==> control.Done?
      ensures control.Done? && control.outcome.Agreed? ==> (Released() <==> !panicked)
      ensures panicked <==> control.Done? && control.outcome.Agreed? && flushed.WriteZero? && io.ld.writeBuffer != []
    {
      flushed := PollOut();
      ready := ReadIfFlushed(flushed);
    }

    /** The sink has answered. */
    method ReadIfFlushed(flushed: Status) returns (ready: bool)
      requires Valid() && control.Settled? && (flushed.Ready? ==> io.Drained())
      modifies this`control, this`panicked, this`eof, this`broken
      modifies io`frames, io`read, io`coming, io.ld`readState, io.ld`readBuffer, io.ld.inner`incoming, io.ld.inner`tally
      ensures Valid()
      ensures var now, before := io.ld.inner.tally, old(io.ld.inner.tally);
              && now.waits == before.waits + (if ready || flushed.Pending? then 0 else 1)
              && now.faults >= before.faults && (broken <==> flushed.Broken? || now.faults > before.faults)
              && now.zeros == before.zeros && (flushed.Pending? ==> !ready)
      ensures ready <==> control.Done?
      ensures control.Done? && control.outcome.Agreed? ==> (Released() <==> !panicked)
      ensures panicked <==> control.Done? && control.outcome.Agreed? && flushed.WriteZero? && io.ld.writeBuffer != []
    {
      if flushed.Pending? {
        return false;
      } else if flushed.Broken? {
        Break();
        return true;
      }
      ready := ReadOn();
    }

    /** Reads until the settlement is decided. */
    method ReadOn() returns (ready: bool)
      requires Valid() && control.Settled?
      modifies this`control, this`panicked, this`eof, this`broken
      modifies io`frames, io`read, io`coming, io.ld`readState, io.ld`readBuffer, io.ld.inner`incoming, io.ld.inner`tally
      ensures Valid() && Explains(io.ld.inner.tally, old(io.ld.inner.tally), ready, broken)
      ensures io.ld.inner.tally.zeros == old(io.ld.inner.tally.zeros)
      ensures ready <==> control.Done?
    {
      ready := true;
      while ready && !control.Done?
        invariant Valid() && (control.Settled? || control.Done?) && (!ready ==> !control.Done?)
        invariant Explains(io.ld.inner.tally, old(io.ld.inner.tally), ready, broken)
        invariant io.ld.inner.tally.zeros == old(io.ld.inner.tally.zeros)
        decreases ready && !control.Done?, |io.coming|
      {
        ready := TurnRead();
      }
    }

    /** Application data written before the confirmation has arrived. */
    method WriteEarly(data: Bytes) returns (r: WriteResult)
      requires Valid() && control.Settled?
      modifies io.ld`writeBuffer, io.ld`direct, io.ld.inner`written, io.ld.inner`tally
      ensures Valid()
      ensures r.Wrote? ==> r.n <= |data| && io.ld.direct == old(io.ld.direct) + data[..r.n]
      ensures !r.Wrote? ==> io.ld.direct == old(io.ld.direct)
      ensures r.WritePending? ==> io.ld.inner.tally == old(io.ld.inner.tally).Waited()
      ensures r.Wrote? ==> io.ld.inner.tally == old(io.ld.inner.tally).AfterWrite(data, r)
    {
      ReadingMeansStarted(cfg, control, io.queued, io.read);
      r := io.PollWrite(data);
    }

    /** The stream may be handed over: all that was queued is written, and reading goes on
        with the first byte after the confirmation. */
    ghost predicate Released()
      reads this, io, io.ld, io.ld.inner
    {
      io.Valid() && io.Drained() && io.ld.AtBoundary()
    }

    method Break()
      requires io.read <= io.stream && (eof ==> io.read == io.stream)
      requires !panicked && (Start(cfg).stage.Over? ==> io.read == [] && !eof)
      modifies this`control, this`broken
      ensures Valid() && control == Done(BROKEN) && broken
    {
      control := Done(BROKEN);
      broken := true;
    }

    /** Enters a state that the items read and the messages queued call for. */
    method Enter(next: DialerControl)
      requires DialerCore(cfg, next, io.queued, io.read, false) && !eof && !broken && !panicked
      requires io.Valid() && Written(next)
      requires Start(cfg).stage.Over? ==> io.read == []
      requires next.Done? ==> !next.outcome.Agreed?
      modifies this`control
      ensures Valid() && control == next
    {
      control := next;
    }

    /** The sink may hand down what it has; it is asked before it takes another message. */
    method PollSink() returns (status: Status)
      requires Valid() && DialerSends(control)
      modifies io.ld`writeBuffer, io.ld`ready, io.ld.inner`written, io.ld.inner`tally
      ensures Valid() && io.ld.inner.tally == old(io.ld.inner.tally).After(status)
      ensures status.Ready? ==> io.ld.ready
    {
      status := io.PollReady();
    }

    method TurnSend() returns (ready: bool)
      requires Valid() && DialerSends(control)
      modifies this`control, this`broken
      modifies io`queued, io.ld`writeBuffer, io.ld`frames, io.ld`ready, io.ld`sinkDropped
      modifies io.ld.inner`written, io.ld.inner`tally
      ensures Valid() && Explains(io.ld.inner.tally, old(io.ld.inner.tally), ready, broken)
      ensures ready ==> DialerPriority(control) < old(DialerPriority(control)) || control.Done?
      ensures !ready ==> control == old(control)
      ensures control.Done? ==> !control.outcome.Agreed?
    {
      var status := PollSink();
      ready := SendIfReady(status);
    }

    /** The sink has answered. */
    method SendIfReady(status: Status) returns (ready: bool)
      requires Valid() && DialerSends(control) && (status.Ready? ==> io.ld.ready)
      modifies this`control, this`broken
      modifies io`queued, io.ld`writeBuffer, io.ld`frames, io.ld`ready, io.ld`sinkDropped
      ensures Valid() && (ready <==> !status.Pending?) && (broken <==> ready && !status.Ready?)
      ensures ready ==> DialerPriority(control) < old(DialerPriority(control)) || control.Done?
      ensures !ready ==> control == old(control)
      ensures control.Done? ==> !control.outcome.Agreed?
    {
      if status.Pending? {
        return false;
      } else if !status.Ready? {
        Break();
        return true;
      }
      SendOn();
      ready := true;
    }

    /** The sink is ready. */
    method SendOn()
      requires Valid() && DialerSends(control) && io.ld.ready
      modifies this`control
      modifies io`queued, io.ld`writeBuffer, io.ld`frames, io.ld`ready, io.ld`sinkDropped
      ensures Valid()
      ensures DialerPriority(control) < old(DialerPriority(control)) || control.Done?
      ensures control.Done? ==> !control.outcome.Agreed?
    {
      DialerSendingKeepsCore(cfg, control, io.queued, io.read);
      SendingLeadsOn(cfg, control);
      if io.read == [] {
        FirstSending(cfg, control, io.queued);
      } else {
        LaterSending(cfg, control, io.queued, io.read);
      }
      match DialerSending(cfg, control) {
        case Refuse(o) => Enter(Done(o));
        case Push(m, next) => Queue(m, next);
      }
    }

    method Queue(m: Message, next: DialerControl)
      requires Valid() && DialerSends(control) && io.ld.ready && Sendable(m)
      requires DialerCore(cfg, next, io.queued + [m], io.read, false)
      requires !next.AwaitProtocol? && !next.RecvProtocols?
      requires next.Done? ==> Start(cfg).stage.Over? && !next.outcome.Agreed?
      requires DialerSends(next) ==> control.SendHeader? && m == Header && io.read == []
      requires control.SendHeader? ==> io.read == [] && !next.SendHeader?
      modifies this`control
      modifies io`queued, io.ld`writeBuffer, io.ld`frames, io.ld`ready, io.ld`sinkDropped
      ensures Valid() && control == next
    {
      HeaderTakesTwenty();
      io.Send(m, next.Settled?);
      Enter(next);
    }

    method PollOut() returns (status: Status)
      requires Valid() && (DialerFlushes(control) || control.Settled?)
      modifies io.ld`writeBuffer, io.ld.inner`written, io.ld.inner`flushed, io.ld.inner`tally
      ensures Valid() && io.ld.inner.tally == old(io.ld.inner.tally).After(status)
      ensures status.Ready? ==> io.Drained() && io.ld.inner.flushed == io.ld.inner.written
    {
      status := io.PollFlush();
    }

    method TurnFlush() returns (ready: bool)
      requires Valid() && DialerFlushes(control)
      modifies this`control, this`broken
      modifies io.ld`writeBuffer, io.ld.inner`written, io.ld.inner`flushed, io.ld.inner`tally
      ensures Valid() && Explains(io.ld.inner.tally, old(io.ld.inner.tally), ready, broken)
      ensures ready && !broken ==> io.ld.inner.flushed == io.ld.inner.written
      ensures ready ==> DialerPriority(control) < old(DialerPriority(control))
      ensures control.Done? ==> !control.outcome.Agreed?
      ensures !ready ==> control == old(control)
    {
      var status := PollOut();
      if status.Pending? {
        return false;
      } else if !status.Ready? {
        Break();
        return true;
      }
      FlushingLeadsOn(cfg, control, io.queued, io.read);
      Enter(FlushedTo(control));
      ready := true;
    }

    method TurnRead() returns (ready: bool)
      requires Valid() && DialerReads(control)
      modifies this`control, this`panicked, this`eof, this`broken
      modifies io`frames, io`read, io`coming, io.ld`readState, io.ld`readBuffer, io.ld.inner`incoming, io.ld.inner`tally
      ensures Valid() && Explains(io.ld.inner.tally, old(io.ld.inner.tally), ready, broken)
      ensures io.ld.inner.tally.zeros == old(io.ld.inner.tally.zeros)
      ensures !ready ==> control == old(control)
      ensures ready && !control.Done? ==> |io.coming| < old(|io.coming|)
      ensures old(control.Settled?) && !control.Done? ==> control.Settled?
    {
      ghost var before := io.read;
      var got := Fetch();
      TakeIn(before, got);
      ready := !got.Later?;
    }

    /** Something was asked of the stream when `before` had been read, and the dialer has yet to
        react. */
    ghost predicate Fetched(before: seq<Item>, got: PollItem)
      reads this, io, io.ld, io.ld.inner
    {
      && DialerReads(control) && DialerCore(cfg, control, io.queued, before, false) && Written(control)
      && !eof && !broken && !panicked && !Start(cfg).stage.Over? && before <= io.stream
      && match got
         case Later => io.Valid() && io.read == before
         case NoMore => io.read == before == io.stream
         case Got(item) =>
           if item == Bad(StreamBroken) then io.read == before
           else io.read == before + [item] <= io.stream && (item.Good? ==> io.Valid() && io.ld.AtBoundary())
    }

    method Fetch() returns (got: PollItem)
      requires Valid() && DialerReads(control)
      modifies io`frames, io`read, io`coming, io.ld`readState, io.ld`readBuffer, io.ld.inner`incoming, io.ld.inner`tally
      ensures Fetched(old(io.read), got) && io.ld.inner.tally == AfterItem(old(io.ld.inner.tally), got)
      ensures got.Got? && got.item.Good? ==> |io.coming| < old(|io.coming|)
    {
      ReadingMeansStarted(cfg, control, io.queued, io.read);
      got := io.PollNext();
    }

    method TakeIn(ghost before: seq<Item>, got: PollItem)
      requires Fetched(before, got)
      modifies this`control, this`panicked, this`eof, this`broken
      ensures Valid() && (broken <==> got == Got(Bad(StreamBroken)))
      ensures got.Later? ==> control == old(control)
      ensures !got.Later? && !control.Done? ==> got.Got? && got.item.Good?
      ensures old(control.Settled?) && !control.Done? ==> control.Settled?
    {
      if got.NoMore? {
        OnEof();
      } else if got == Got(Bad(StreamBroken)) {
        Break();
      } else if got.Got? {
        OnItem(before, got.item);
      }
    }

    method OnEof()
      requires DialerReads(control) && DialerCore(cfg, control, io.queued, io.read, false) && Written(control)
      requires io.read == io.stream && !broken && !panicked && !Start(cfg).stage.Over?
      modifies this`control, this`eof
      ensures Valid() && control.Done? && !control.outcome.Agreed?
    {
      eof := true;
      control := Done(if control.Settled? then Violation(IoError(UnexpectedEof)) else Failed);
    }

    method OnItem(ghost before: seq<Item>, item: Item)
      requires DialerReads(control) && DialerCore(cfg, control, io.queued, before, false) && Written(control)
      requires io.read == before + [item] <= io.stream
      requires !eof && !broken && !panicked && !Start(cfg).stage.Over?
      requires item.Good? ==> io.Valid() && io.ld.AtBoundary()
      modifies this`control, this`panicked
      ensures Valid() && (!control.Done? ==> item.Good?)
      ensures old(control.Settled?) && !control.Done? ==> control.Settled?
    {
      DialerReceiveKeepsCore(cfg, control, io.queued, before, item);
      ReceivingLeadsOn(cfg, control, item);
      ReadingIsNotOver(cfg, control, io.queued, before);
      assert io.read[..|io.read| - 1] == before;
      GoOn(DialerReceive(cfg, control, item));
    }

    lemma StillWritten(next: DialerControl)
      requires DialerReads(control) && Written(control) && io.read != [] && !Start(cfg).stage.Over?
      requires !DialerFlushes(next) && !next.SendHeader? && (next.Settled? ==> control.Settled?)
      requires control.Settled? ==> next.Settled? || next.Done?
      ensures Written(next)
    {
    }

    /** The state after an item; on an agreement the stream is handed over. */
    method GoOn(next: DialerControl)
      requires DialerCore(cfg, next, io.queued, io.read, false) && JustOver(cfg, io.read) && io.read <= io.stream
      requires !eof && !broken && !panicked && !Start(cfg).stage.Over?
      requires DialerReads(control) && Written(control)
      requires !DialerFlushes(next) && !next.SendHeader? && (next.Settled? ==> control.Settled?)
      requires control.Settled? ==> next.Settled? || next.Done?
      requires !next.Done? || next.outcome.Agreed? ==> io.Valid() && io.ld.AtBoundary()
      modifies this`control, this`panicked
      ensures Valid() && control == next
    {
      StillWritten(next);
      if next.Done? && next.outcome.Agreed? {
        Agree(next.outcome);
      } else {
        control := next;
      }
    }

    /** Takes the stream back out, or fails to, because not everything is written. */
    method Agree(o: Outcome)
      requires DialerCore(cfg, Done(o), io.queued, io.read, false) && JustOver(cfg, io.read) && io.read <= io.stream
      requires !eof && !broken && !panicked && !Start(cfg).stage.Over? && o.Agreed?
      requires Written(Done(o)) && io.Valid() && io.ld.AtBoundary()
      modifies this`control, this`panicked
      ensures Valid() && control == Done(o)
    {
      if io.Drained() {
        var _ := Release();
      }
      Conclude(o);
    }

    method Conclude(o: Outcome)
      requires DialerCore(cfg, Done(o), io.queued, io.read, false) && JustOver(cfg, io.read) && io.read <= io.stream
      requires !eof && !broken && !Start(cfg).stage.Over? && o.Agreed?
      requires Written(Done(o)) && io.Valid() && io.ld.AtBoundary()
      modifies this`control, this`panicked
      ensures Valid() && control == Done(o)
    {
      panicked, control := !io.Drained(), Done(o);
    }

    method Release() returns (stream: RawStream)
      requires Released()
      ensures stream == io.ld.inner
    {
      stream := io.IntoInner();
    }
  }

  function ListenerPriority(c: ListenerControl): nat {
    if ListenerSends(c) then 2 else if c.Flush? then 1 else 0
  }

  lemma AnsweringLeadsOn(c: ListenerControl)
    requires ListenerSends(c)
    ensures match ListenerSending(c)
            case Refuse(o) => !o.Agreed?
            case Push(m, next) => Sendable(m) && next.Flush? && (Selected(next) <==> Selected(c))
  {
  }

  function AnsweredTo(c: ListenerControl): ListenerControl
    requires c.Flush?
  {
    match c.selected
    case Some(name) => Ended(Agreed(name))
    case None => AwaitMessage(c.lastSentNa)
  }

  lemma AnsweredLeadsOn(sup: seq<Name>, c: ListenerControl, queued: seq<Message>, read: seq<Item>)
    requires c.Flush? && ListenerCore(sup, c, queued, read, false)
    ensures ListenerCore(sup, AnsweredTo(c), queued, read, false)
    ensures ListenerPriority(AnsweredTo(c)) < ListenerPriority(c)
    ensures Selected(AnsweredTo(c)) <==> Selected(c)
  {
  }

  lemma HearingLeadsOn(supported: seq<Name>, c: ListenerControl, item: Item)
    requires ListenerReads(c)
    ensures var next := ListenerReceive(supported, c, item);
            && (next.Ended? || (ListenerSends(next) && item.Good?))
            && (next.Ended? ==> !next.outcome.Agreed?)
  {
  }

  /** A name has been chosen. */
  predicate Selected(c: ListenerControl) {
    match c
    case SendMessage(_, name) => name.Some?
    case Flush(name, _) => name.Some?
    case Ended(o) => o.Agreed?
    case _ => false
  }

  /** `ListenerSelectFuture`. */
  class ListenerSelect {
    const supported: Offer
    const io: MessageIO
    var control: ListenerControl

    ghost var eof: bool
    ghost var broken: bool

    ghost predicate Valid()
      reads this, io, io.ld, io.ld.inner
    {
      && io.read <= io.stream
      && (eof ==> io.read == io.stream)
      && (!control.Ended? ==> io.Valid() && !broken)
      && (broken ==> control == Ended(BROKEN))
      && (!broken ==> && ListenerCore(supported, control, io.queued, io.read, eof)
                      && io.WriterValid() && !io.ld.sinkDropped && (!control.Flush? ==> io.Drained()))
      && (ListenerSends(control) || control.Flush? ==> io.ld.AtBoundary())
      && (control.Ended? && control.outcome.Agreed? ==> Released())
      && (Selected(control) ==> JustFinished(supported, io.read))
    }

    ghost predicate Released()
      reads this, io, io.ld, io.ld.inner
    {
      io.Valid() && io.Drained() && io.ld.AtBoundary()
    }

    constructor (io: MessageIO, protocols: seq<Name>)
      requires io.Valid() && io.queued == [] && io.read == [] && io.Drained() && !io.ld.sinkDropped
      ensures Valid() && control == AwaitHeader
      ensures this.io == io && supported == Supported(protocols)
    {
      this.io := io;
      supported := Supported(protocols);
      control := AwaitHeader;
      eof := false;
      broken := false;
    }

    /** Runs until it has ended or is pending; see `DialerSelect.Poll`. */
    method Poll() returns (ready: bool)
      requires Valid() && !control.Ended?
      modifies this, io, io.ld, io.ld.inner
      ensures Valid() && Explains(io.ld.inner.tally, old(io.ld.inner.tally), ready, broken)
      ensures ready <==> control.Ended?
      ensures control.Ended? && control.outcome.Agreed? ==> Released()
    {
      ready := true;
      while ready && !control.Ended?
        invariant Valid() && Explains(io.ld.inner.tally, old(io.ld.inner.tally), ready, broken)
        invariant !ready ==> !control.Ended?
        decreases ready && !control.Ended?, |io.coming|, ListenerPriority(control)
      {
        ready := Turn();
      }
    }

    method Turn() returns (ready: bool)
      requires Valid() && !control.Ended?
      modifies this, io, io.ld, io.ld.inner
      ensures Valid() && Explains(io.ld.inner.tally, old(io.ld.inner.tally), ready, broken)
      ensures !ready ==> control == old(control)
      ensures ready && !control.Ended? ==>
                || |io.coming| < old(|io.coming|)
                || (|io.coming| == old(|io.coming|) && ListenerPriority(control) < old(ListenerPriority(control)))
    {
      if ListenerSends(control) {
        ready := TurnSend();
      } else if control.Flush? {
        ready := TurnFlush();
      } else {
        ready := TurnRead();
      }
    }

    method Break()
      requires io.read <= io.stream && (eof ==> io.read == io.stream)
      modifies this`control, this`broken
      ensures Valid() && control == Ended(BROKEN) && broken
    {
      control := Ended(BROKEN);
      broken := true;
    }

    method Enter(next: ListenerControl)
      requires ListenerCore(supported, next, io.queued, io.read, false) && !eof && !broken
      requires io.Valid() && !io.ld.sinkDropped
      requires !next.Flush? ==> io.Drained()
      requires Selected(next) ==> JustFinished(supported, io.read)
      requires ListenerSends(next) || next.Flush? || (next.Ended? && next.outcome.Agreed?) ==> io.ld.AtBoundary()
      modifies this`control
      ensures Valid() && control == next
    {
      control := next;
    }

    /** The sink may hand down what it has; it is asked before it takes another message. */
    method PollSink() returns (status: Status)
      requires Valid() && ListenerSends(control)
      modifies io.ld`writeBuffer, io.ld`ready, io.ld.inner`written, io.ld.inner`tally
      ensures Valid() && io.ld.inner.tally == old(io.ld.inner.tally).After(status)
      ensures status.Ready? ==> io.ld.ready
    {
      status := io.PollReady();
    }

    method TurnSend() returns (ready: bool)
      requires Valid() && ListenerSends(control)
      modifies this`control, this`broken
      modifies io`queued, io.ld`writeBuffer, io.ld`frames, io.ld`ready, io.ld`sinkDropped
      modifies io.ld.inner`written, io.ld.inner`tally
      ensures Valid() && Explains(io.ld.inner.tally, old(io.ld.inner.tally), ready, broken)
      ensures ready ==> ListenerPriority(control) < old(ListenerPriority(control))
      ensures !ready ==> control == old(control)
      ensures control.Ended? ==> !control.outcome.Agreed?
    {
      var status := PollSink();
      ready := SendIfReady(status);
    }

    /** The sink has answered. */
    method SendIfReady(status: Status) returns (ready: bool)
      requires Valid() && ListenerSends(control) && (status.Ready? ==> io.ld.ready)
      modifies this`control, this`broken
      modifies io`queued, io.ld`writeBuffer, io.ld`frames, io.ld`ready, io.ld`sinkDropped
      ensures Valid() && (ready <==> !status.Pending?) && (broken <==> ready && !status.Ready?)
      ensures ready ==> ListenerPriority(control) < old(ListenerPriority(control))
      ensures !ready ==> control == old(control)
      ensures control.Ended? ==> !control.outcome.Agreed?
    {
      if status.Pending? {
        return false;
      } else if !status.Ready? {
        Break();
        return true;
      }
      SendOn();
      ready := true;
    }

    /** The sink is ready. */
    method SendOn()
      requires Valid() && ListenerSends(control) && io.ld.ready
      modifies this`control
      modifies io`queued, io.ld`writeBuffer, io.ld`frames, io.ld`ready, io.ld`sinkDropped
      ensures Valid()
      ensures ListenerPriority(control) < old(ListenerPriority(control))
      ensures control.Ended? ==> !control.outcome.Agreed?
    {
      ListenerSendingKeepsCore(supported, control, io.queued, io.read);
      AnsweringLeadsOn(control);
      match ListenerSending(control) {
        case Refuse(o) => Enter(Ended(o));
        case Push(m, next) =>
          io.Send(m, false);
          Enter(next);
      }
    }

    method PollOut() returns (status: Status)
      requires Valid() && control.Flush?
      modifies io.ld`writeBuffer, io.ld.inner`written, io.ld.inner`flushed, io.ld.inner`tally
      ensures Valid() && io.ld.inner.tally == old(io.ld.inner.tally).After(status)
      ensures status.Ready? ==> io.Drained() && io.ld.inner.flushed == io.ld.inner.written
    {
      status := io.PollFlush();
    }

    method TurnFlush() returns (ready: bool)
      requires Valid() && control.Flush?
      modifies this`control, this`broken
      modifies io.ld`writeBuffer, io.ld.inner`written, io.ld.inner`flushed, io.ld.inner`tally
      ensures Valid() && Explains(io.ld.inner.tally, old(io.ld.inner.tally), ready, broken)
      ensures ready && !broken ==> io.ld.inner.flushed == io.ld.inner.written
      ensures ready ==> ListenerPriority(control) < old(ListenerPriority(control))
      ensures !ready ==> control == old(control)
      ensures control.Ended? && control.outcome.Agreed? ==> Released()
    {
      var status := PollOut();
      if status.Pending? {
        return false;
      } else if !status.Ready? {
        Break();
        return true;
      }
      GoOn();
      ready := true;
    }

    /** An answer has been written. If it was an agreement, the stream is handed over. */
    method GoOn()
      requires Valid() && control.Flush? && io.Drained()
      modifies this`control
      ensures Valid() && ListenerPriority(control) < old(ListenerPriority(control))
      ensures control.Ended? && control.outcome.Agreed? ==> Released()
    {
      if control.selected.Some? {
        var _ := Release();
      }
      AnsweredLeadsOn(supported, control, io.queued, io.read);
      Enter(AnsweredTo(control));
    }

    method Release() returns (stream: RawStream)
      requires Released()
      ensures stream == io.ld.inner
    {
      stream := io.IntoInner();
    }

    method TurnRead() returns (ready: bool)
      requires Valid() && ListenerReads(control)
      modifies this`control, this`eof, this`broken
      modifies io`frames, io`read, io`coming, io.ld`readState, io.ld`readBuffer, io.ld.inner`incoming, io.ld.inner`tally
      ensures Valid() && Explains(io.ld.inner.tally, old(io.ld.inner.tally), ready, broken)
      ensures !ready ==> control == old(control)
      ensures ready && !control.Ended? ==> |io.coming| < old(|io.coming|)
      ensures control.Ended? ==> !control.outcome.Agreed?
    {
      ghost var before := io.read;
      var got := io.PollNext();
      OnRead(before, got);
      ready := !got.Later?;
    }

    method OnRead(ghost before: seq<Item>, got: PollItem)
      requires ListenerReads(control) && ListenerCore(supported, control, io.queued, before, false)
      requires io.WriterValid() && !io.ld.sinkDropped && io.Drained()
      requires !eof && !broken && before <= io.stream
      requires got.Later? ==> io.Valid() && io.read == before
      requires got.NoMore? || got == Got(Bad(StreamBroken)) ==> io.read == before
      requires got.NoMore? ==> io.read == io.stream
      requires got.Got? && got.item != Bad(StreamBroken) ==> io.read == before + [got.item] <= io.stream
      requires got.Got? && got.item.Good? ==> io.Valid() && io.ld.AtBoundary()
      modifies this`control, this`eof, this`broken
      ensures Valid() && (broken <==> got == Got(Bad(StreamBroken)))
      ensures got.Later? ==> control == old(control)
      ensures !got.Later? && !control.Ended? ==> got.Got? && got.item.Good?
      ensures control.Ended? ==> !control.outcome.Agreed?
    {
      match got {
        case Later =>
        case NoMore => OnEof();
        case Got(item) =>
          if item == Bad(StreamBroken) {
            Break();
          } else {
            OnItem(before, item);
          }
      }
    }

    method OnEof()
      requires ListenerReads(control) && ListenerCore(supported, control, io.queued, io.read, false)
      requires io.read == io.stream && !broken
      requires io.WriterValid() && !io.ld.sinkDropped && io.Drained()
      modifies this`control, this`eof
      ensures Valid() && control == Ended(Failed)
    {
      eof := true;
      control := Ended(Failed);
    }

    method OnItem(ghost before: seq<Item>, item: Item)
      requires ListenerReads(control) && ListenerCore(supported, control, io.queued, before, false)
      requires io.read == before + [item] <= io.stream && !eof && !broken
      requires io.WriterValid() && !io.ld.sinkDropped && io.Drained()
      requires item.Good? ==> io.Valid() && io.ld.AtBoundary()
      modifies this`control
      ensures Valid() && (!control.Ended? ==> item.Good?)
      ensures control.Ended? ==> !control.outcome.Agreed?
    {
      ListenerReceiveKeepsCore(supported, control, io.queued, before, item);
      HearingLeadsOn(supported, control, item);
      assert io.read[..|io.read| - 1] == before;
      control := ListenerReceive(supported, control, item);
    }
  }
}
