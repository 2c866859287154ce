/** `MessageIO`: messages over length-delimited frames. */
module MessageStream {
  import Seqs
  import opened Varint
  import opened FrameGrammar
  import opened LengthDelimitedIo
  import opened Messages

  datatype PollItem = Later | Got(item: Item) | NoMore

  function Encodings(ms: seq<Message>): (frames: seq<Bytes>)
    ensures |frames| == |ms|
    ensures forall i | 0 <= i < |ms| :: frames[i] == Messages.Encode(ms[i])
  {
    seq(|ms|, i requires 0 <= i < |ms| => Messages.Encode(ms[i]))
  }

  lemma HeaderTakesTwenty()
    ensures |EncodeFrame(Messages.Encode(Header))| == 20 && Sendable(Header)
  {
  }

  lemma EncodingsSnoc(ms: seq<Message>, m: Message)
    ensures Encodings(ms + [m]) == Encodings(ms) + [Messages.Encode(m)]
  {
  }

  lemma {:induction false} EncodeStreamIsEncodeAll(ms: seq<Message>)
    ensures EncodeStream(ms) == EncodeAll(Encodings(ms))
  {
    if ms != [] {
      assert Encodings(ms)[1..] == Encodings(ms[1..]);
      EncodeStreamIsEncodeAll(ms[1..]);
    }
  }

  /** Reading one item off the front of a stream. */
  lemma NextItem(s: Bytes)
    ensures match ParseFrame(s)
            case Frame(p, rest) => Items(s) == [ItemOf(p)] + Items(rest) && |rest| < |s|
            case End => Items(s) == []
            case Fail(e) => Items(s) == [Bad(IoError(e))]
  {
    var f := ParseFrame(s);
    if f.Frame? {
      ParsesExactlyEncodings(s, f.payload, f.rest);
    }
  }

  lemma NotBroken(frame: Bytes)
    ensures ItemOf(frame) != Bad(StreamBroken)
  {
    DecodeListErrors(frame, 0);
  }

  /** An item has been read off the front of what was still to come. */
  lemma ReadOff(all: seq<Item>, read: seq<Item>, item: Item, rest: seq<Item>)
    requires all == read + ([item] + rest)
    ensures all == (read + [item]) + rest && read + [item] <= all
  {
  }

  function AfterItem(t: Tally, r: PollItem): Tally {
    match r
    case Later => t.Waited()
    case Got(item) => if item == Bad(StreamBroken) then t.Failed() else t
    case NoMore => t
  }

  class MessageIO {
    const ld: LengthDelimited

    /** The messages the sink has accepted. */
    ghost var queued: seq<Message>

    /** All the bytes the remote will ever have sent, and the items in them: those read, from
        as many frames, and those still to come. */
    ghost const bytes: Bytes
    ghost const stream: seq<Item>
    ghost var frames: seq<Bytes>
    ghost var read: seq<Item>
    ghost var coming: seq<Item>

    ghost predicate WriterValid()
      reads this`queued, ld`writeBuffer, ld`frames, ld`direct, ld`sinkDropped, ld`ready, ld.inner`written
    {
      ld.WriterOk() && ld.frames == Encodings(queued)
    }

    ghost predicate ReaderValid()
      reads this`frames, this`read, this`coming, ld`readState, ld`readBuffer, ld.inner`incoming
    {
      && ld.ReaderOk() && ld.CanPoll()
      && AllFit(frames) && |frames| == |read|
      && bytes == EncodeAll(frames) + ld.Unparsed()
      && coming == Items(ld.Unparsed())
      && stream == read + coming
    }

    ghost predicate Valid()
      reads this, ld, ld.inner
    {
      WriterValid() && ReaderValid()
    }

    predicate Drained()
      reads ld`writeBuffer
    {
      ld.writeBuffer == []
    }

    constructor (inner: RawStream)
      requires inner.written == []
      ensures Valid() && Drained() && queued == []
      ensures fresh(ld) && ld.inner == inner && !ld.sinkDropped && ld.direct == []
      ensures bytes == inner.incoming && stream == Items(bytes) && read == []
    {
      ld := new LengthDelimited(inner);
      queued := [];
      bytes := inner.incoming;
      stream := Items(inner.incoming);
      frames := [];
      read := [];
      coming := Items(inner.incoming);
      new;
      assert EncodeAll(frames) + bytes == bytes && read + coming == stream;
    }

    method PollReady() returns (r: Status)
      requires Valid() && !ld.sinkDropped
      modifies ld`writeBuffer, ld`ready, ld.inner`written, ld.inner`tally
      ensures Valid() && ld.inner.tally == old(ld.inner.tally).After(r)
      ensures r.Ready? ==> ld.ready
      ensures old(|ld.writeBuffer|) < MAX_FRAME_SIZE ==> unchanged(ld`writeBuffer) && unchanged(ld.inner`written)
    {
      r := ld.PollReady();
    }

    method StartSend(m: Message) returns (ok: bool)
      requires Valid() && ld.ready && !ld.sinkDropped
      modifies this`queued, ld`writeBuffer, ld`frames, ld`ready
      ensures Valid()
      ensures ok <==> Sendable(m)
      ensures queued == if ok then old(queued) + [m] else old(queued)
      ensures ok ==> ld.writeBuffer == old(ld.writeBuffer) + EncodeFrame(Messages.Encode(m))
    {
      EncodingsSnoc(queued, m);
      ok := ld.StartSend(Messages.Encode(m));
      if ok {
        queued := queued + [m];
      }
    }

    /** Queues a message, after the last of which only application data is written. */
    method Send(m: Message, last: bool)
      requires Valid() && ld.ready && !ld.sinkDropped && Sendable(m)
      modifies this`queued, ld`writeBuffer, ld`frames, ld`ready, ld`sinkDropped
      ensures Valid() && queued == old(queued) + [m] && ld.sinkDropped == last
      ensures ld.writeBuffer == old(ld.writeBuffer) + EncodeFrame(Messages.Encode(m))
    {
      var _ := StartSend(m);
      if last {
        ld.IntoReader();
      }
    }

    /** After a successful flush the remote can read every queued message. */
    method PollFlush() returns (r: Status)
      requires Valid()
      modifies ld`writeBuffer, ld.inner`written, ld.inner`flushed, ld.inner`tally
      ensures Valid() && ld.inner.tally == old(ld.inner.tally).After(r)
      ensures r.Ready? ==> Drained() && ld.inner.flushed == ld.inner.written == EncodeStream(queued) + ld.direct
    {
      r := ld.PollFlush();
      EncodeStreamIsEncodeAll(queued);
    }

    /** Application data, after all the queued messages. */
    method PollWrite(data: Bytes) returns (r: WriteResult)
      requires Valid() && ld.sinkDropped
      modifies ld`writeBuffer, ld`direct, ld.inner`written, ld.inner`tally
      ensures Valid()
      ensures r.WritePending? ==> ld.inner.tally == old(ld.inner.tally).Waited()
      ensures r.Wrote? ==> ld.inner.tally == old(ld.inner.tally).AfterWrite(data, r)
      ensures r.Wrote? ==> r.n <= |data| && ld.direct == old(ld.direct) + data[..r.n]
      ensures !r.Wrote? ==> ld.direct == old(ld.direct)
    {
      r := ld.PollWriteDirect(data);
    }

    /** The next item of the remote's stream, as the pure decoder sees it. After an error
        the stream must not be read again. */
    method PollNext() returns (r: PollItem)
      requires Valid()
      modifies this`frames, this`read, this`coming
      modifies ld`readState, ld`readBuffer, ld.inner`incoming, ld.inner`tally
      ensures WriterValid() && ld.inner.tally == AfterItem(old(ld.inner.tally), r)
      ensures r.Later? ==> Valid() && read == old(read)
      ensures r.NoMore? || r == Got(Bad(StreamBroken)) ==> read == old(read)
      ensures r.NoMore? ==> read == stream
      ensures r.Got? && r.item != Bad(StreamBroken) ==> read == old(read) + [r.item] <= stream
      ensures r.Got? && r.item.Good? ==> Valid() && ld.AtBoundary() && |coming| < old(|coming|)
    {
      ghost var s := ld.Unparsed();
      var f := ld.PollNext();
      r := Take(s, f);
    }

    /** The item that the next frame, or its want, amounts to. */
    method Take(ghost s: Bytes, f: PollFrame) returns (r: PollItem)
      requires WriterValid() && ld.ReaderOk() && ld.Yields(s, f)
      requires AllFit(frames) && |frames| == |read| && bytes == EncodeAll(frames) + s
      requires coming == Items(s) && stream == read + coming
      modifies this`frames, this`read, this`coming
      ensures WriterValid() && AfterItem(ld.inner.tally, r) == AfterFrame(ld.inner.tally, f)
      ensures r.Later? ==> Valid() && read == old(read)
      ensures r.NoMore? || r == Got(Bad(StreamBroken)) ==> read == old(read)
      ensures r.NoMore? ==> read == stream
      ensures r.Got? && r.item != Bad(StreamBroken) ==> read == old(read) + [r.item] <= stream
      ensures r.Got? && r.item.Good? ==> Valid() && ld.AtBoundary() && |coming| < old(|coming|)
    {
      NextItem(s);
      match f
      case NotYet => r := Later;
      case IoFailure => r := Got(Bad(StreamBroken));
      case Eof => r := NoMore;
      case Malformed(e) =>
        ReadOff(stream, read, Bad(IoError(e)), []);
        read := read + [Bad(IoError(e))];
        r := Got(Bad(IoError(e)));
      case Item(frame) =>
        Accept(s, frame);
        NotBroken(frame);
        r := Got(ItemOf(frame));
    }

    /** A frame has been read off the bytes `s`. */
    ghost method Accept(s: Bytes, frame: Bytes)
      requires WriterValid() && ld.ReaderOk() && ld.AtBoundary() && AllFit(frames) && |frames| == |read|
      requires bytes == EncodeAll(frames) + s && ParseFrame(s) == Frame(frame, ld.inner.incoming)
      requires stream == read + coming && coming == [ItemOf(frame)] + Items(ld.inner.incoming)
      modifies this`frames, this`read, this`coming
      ensures Valid() && |coming| < old(|coming|)
      ensures read == old(read) + [ItemOf(frame)] <= stream
    {
      TakeOne(bytes, frames, s, frame, ld.inner.incoming);
      ReadOff(stream, read, ItemOf(frame), Items(ld.inner.incoming));
      frames := frames + [frame];
      read := read + [ItemOf(frame)];
      coming := Items(ld.inner.incoming);
    }

    /** Gives the stream back. Its preconditions are the assertions of the source. */
    method IntoInner() returns (io: RawStream)
      requires Valid() && ld.AtBoundary() && Drained()
      ensures io == ld.inner
      ensures io.written == EncodeStream(queued) + ld.direct
      ensures bytes == EncodeAll(frames) + io.incoming && Items(io.incoming) == coming
    {
      EncodeStreamIsEncodeAll(queued);
      io := ld.IntoInner();
    }
  }
}
