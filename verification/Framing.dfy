/** The grammar of length-delimited frames: a varint of at most two bytes, then
    that many payload bytes. */
module FrameGrammar {
  import Seqs
  import opened Varint

  const MAX_LEN_BYTES := 2
  const MAX_FRAME_SIZE := 16383

  datatype ReadError = UnexpectedEof | InvalidData

  datatype Parsed =
    | Frame(payload: Bytes, rest: Bytes)
    | End
    | Fail(error: ReadError)

  function EncodeFrame(payload: Bytes): Bytes {
    Varint.Encode(|payload|) + payload
  }

  function Body(len: nat, s: Bytes): Parsed {
    if len <= |s| then Frame(s[..len], s[len..]) else Fail(UnexpectedEof)
  }

  /** The length that a two-byte prefix stands for. */
  function LongLength(low: int, high: int): int {
    low - 128 + 128 * high
  }

  lemma LongLengthParts(low: int, high: int)
    requires 128 <= low < 256 && 0 < high < 128
    ensures var len := LongLength(low, high);
            128 <= len <= MAX_FRAME_SIZE && len / 128 == high && len % 128 == low - 128
  {
  }

  /** What the first frame of a finished byte stream is. */
  function ParseFrame(s: Bytes): Parsed {
    if s == [] then End
    else if s[0] < 128 then Body(s[0], s[1..])
    else if |s| == 1 then Fail(UnexpectedEof)
    else if s[1] == 0 || s[1] >= 128 then Fail(InvalidData)
    else Body(LongLength(s[0], s[1]), s[2..])
  }

  lemma LongPrefix(len: nat)
    requires 128 <= len <= MAX_FRAME_SIZE
    ensures Varint.Encode(len) == [128 + len % 128, len / 128]
  {
    assert Varint.Encode(len / 128) == [len / 128];
  }

  lemma ParseLengthPrefix(len: nat, s: Bytes)
    requires len <= MAX_FRAME_SIZE
    ensures ParseFrame(Varint.Encode(len) + s) == Body(len, s)
  {
    var t := Varint.Encode(len) + s;
    if len < 128 {
      assert t[1..] == s;
    } else {
      assert Varint.Encode(len / 128) == [len / 128];
      assert t == [128 + len % 128, len / 128] + s;
      assert t[2..] == s;
    }
  }

  /** The parser accepts exactly the encodings of frames of at most 16383 bytes,
      and splits the stream right behind the encoding. */
  lemma ParsesExactlyEncodings(s: Bytes, payload: Bytes, rest: Bytes)
    ensures ParseFrame(s) == Frame(payload, rest)
       <==> |payload| <= MAX_FRAME_SIZE && s == EncodeFrame(payload) + rest
  {
    var len := |payload|;
    if ParseFrame(s) == Frame(payload, rest) {
      if s[0] < 128 {
        Seqs.Assoc([s[0]], payload, rest);
        assert s[1..] == payload + rest;
      } else {
        LongPrefix(len);
        Seqs.Assoc([s[0], s[1]], payload, rest);
        assert s[2..] == payload + rest;
      }
    }
    if len <= MAX_FRAME_SIZE && s == EncodeFrame(payload) + rest {
      Seqs.Assoc(Varint.Encode(len), payload, rest);
      ParseLengthPrefix(len, payload + rest);
      assert (payload + rest)[..len] == payload && (payload + rest)[len..] == rest;
    }
  }

  lemma CutShortIsInsideAFrame(s: Bytes) returns (p: Bytes)
    requires ParseFrame(s) == Fail(UnexpectedEof)
    ensures s != [] && |p| <= MAX_FRAME_SIZE && s < EncodeFrame(p)
  {
    if s[0] >= 128 && |s| == 1 {
      p := seq(s[0], i => 0);
      LongPrefix(|p|);
      assert EncodeFrame(p)[0] == s[0];
    } else {
      var len, t := s[0], s[1..];
      if s[0] >= 128 {
        len, t := LongLength(s[0], s[1]), s[2..];
        LongPrefix(len);
      }
      assert Varint.Encode(len) + t == s;
      p := t + seq(len - |t|, i => 0);
      assert EncodeFrame(p) == s + p[|t|..];
    }
  }

  lemma InsideAFrameIsCutShort(s: Bytes, p: Bytes)
    requires s != [] && |p| <= MAX_FRAME_SIZE && s < EncodeFrame(p)
    ensures ParseFrame(s) == Fail(UnexpectedEof)
  {
    var e := EncodeFrame(p);
    assert forall i | 0 <= i < |s| :: s[i] == e[i];
    if |p| >= 128 {
      LongPrefix(|p|);
    }
  }

  /** The stream is reported as cut short exactly when it stops inside a frame. */
  lemma CutShortExactlyInsideAFrame(s: Bytes)
    ensures ParseFrame(s) == Fail(UnexpectedEof)
       <==> s != [] && exists p: Bytes :: |p| <= MAX_FRAME_SIZE && s < EncodeFrame(p)
  {
    if ParseFrame(s) == Fail(UnexpectedEof) {
      var p := CutShortIsInsideAFrame(s);
    } else {
      forall p: Bytes | s != [] && |p| <= MAX_FRAME_SIZE && s < EncodeFrame(p) ensures false {
        InsideAFrameIsCutShort(s, p);
      }
    }
  }

  /** All frames of a finished stream, and how it ends. */
  datatype Contents = Contents(frames: seq<Bytes>, ending: Parsed)

  function Prepend(frames: seq<Bytes>, c: Contents): Contents {
    c.(frames := frames + c.frames)
  }

  function ParseAll(s: Bytes): Contents
    decreases |s|
  {
    match ParseFrame(s)
    case Frame(payload, rest) =>
      ParsesExactlyEncodings(s, payload, rest);
      Prepend([payload], ParseAll(rest))
    case end => Contents([], end)
  }

  function EncodeAll(frames: seq<Bytes>): Bytes {
    if frames == [] then [] else EncodeFrame(frames[0]) + EncodeAll(frames[1..])
  }

  ghost predicate AllFit(frames: seq<Bytes>) {
    forall f | f in frames :: |f| <= MAX_FRAME_SIZE
  }

  lemma {:induction false} EncodeAllConcat(a: seq<Bytes>, b: seq<Bytes>)
    ensures EncodeAll(a + b) == EncodeAll(a) + EncodeAll(b)
  {
    if a == [] {
      assert a + b == b;
    } else {
      assert (a + b)[1..] == a[1..] + b;
      EncodeAllConcat(a[1..], b);
      assert EncodeAll(a + b) == EncodeFrame(a[0]) + (EncodeAll(a[1..]) + EncodeAll(b));
    }
  }

  lemma EncodeAllSnoc(a: seq<Bytes>, f: Bytes)
    ensures EncodeAll(a + [f]) == EncodeAll(a) + EncodeFrame(f)
  {
    EncodeAllConcat(a, [f]);
    assert EncodeAll([f]) == EncodeFrame(f);
  }

  lemma ParseAllStep(f: Bytes, rest: Bytes)
    requires |f| <= MAX_FRAME_SIZE
    ensures ParseAll(EncodeFrame(f) + rest) == Prepend([f], ParseAll(rest))
  {
    ParsesExactlyEncodings(EncodeFrame(f) + rest, f, rest);
  }

  /** Reading inverts writing: any accepted frames come back in order, and the parser
      stands at the first byte of whatever follows them. */
  lemma {:induction false} ParseAllInvertsEncodeAll(frames: seq<Bytes>, tail: Bytes)
    requires AllFit(frames)
    ensures ParseAll(EncodeAll(frames) + tail) == Prepend(frames, ParseAll(tail))
  {
    var c := ParseAll(tail);
    if frames == [] {
      assert EncodeAll(frames) + tail == tail;
      assert frames + c.frames == c.frames;
    } else {
      var rest := EncodeAll(frames[1..]) + tail;
      assert EncodeAll(frames) + tail == EncodeFrame(frames[0]) + rest;
      ParseAllStep(frames[0], rest);
      ParseAllInvertsEncodeAll(frames[1..], tail);
      Seqs.Uncons(frames, c.frames);
    }
  }

  lemma EncodeAllCons(f: Bytes, frames: seq<Bytes>, tail: Bytes)
    ensures EncodeAll([f] + frames) + tail == EncodeFrame(f) + (EncodeAll(frames) + tail)
  {
    assert ([f] + frames)[1..] == frames;
  }

  /** The bytes after as many frames are the same however they are described. */
  lemma {:induction false} SameFrames(a: seq<Bytes>, x: Bytes, b: seq<Bytes>, y: Bytes)
    requires AllFit(a) && AllFit(b) && |a| == |b| && EncodeAll(a) + x == EncodeAll(b) + y
    ensures a == b && x == y
  {
    if a == [] {
      assert EncodeAll(a) + x == x && EncodeAll(b) + y == y;
    } else {
      Seqs.HeadTail(a);
      Seqs.HeadTail(b);
      EncodeAllCons(a[0], a[1..], x);
      EncodeAllCons(b[0], b[1..], y);
      ParsesExactlyEncodings(EncodeAll(a) + x, a[0], EncodeAll(a[1..]) + x);
      ParsesExactlyEncodings(EncodeAll(b) + y, b[0], EncodeAll(b[1..]) + y);
      SameFrames(a[1..], x, b[1..], y);
    }
  }

  /** Conversely every finished stream is its frames, encoded, and then an ending that
      is no frame. So `ParseAll` loses nothing and invents nothing. */
  lemma {:induction false} StreamIsItsFrames(s: Bytes) returns (tail: Bytes)
    ensures AllFit(ParseAll(s).frames)
    ensures s == EncodeAll(ParseAll(s).frames) + tail
    ensures ParseFrame(tail) == ParseAll(s).ending && !ParseFrame(tail).Frame?
    decreases |s|
  {
    match ParseFrame(s)
    case Frame(payload, rest) =>
      ParsesExactlyEncodings(s, payload, rest);
      tail := StreamIsItsFrames(rest);
      EncodeAllCons(payload, ParseAll(rest).frames, tail);
    case _ =>
      tail := s;
  }
}

/** `LengthDelimited`: incremental reader and buffered writer of frames. */
module LengthDelimitedIo {
  import Seqs
  import opened Varint
  import opened FrameGrammar

  datatype ReadResult = ReadPending | ReadBroken | ReadBytes(data: Bytes)
  datatype WriteResult = WritePending | WriteBroken | Wrote(n: nat)

  /** The result of an operation that either makes no progress yet, or is done,
      or fails. `WriteZero` is the kind of error that the sink raises itself if the stream
      below takes no bytes; `Broken` stands for the other kinds. */
  datatype Status = Pending | Ready | WriteZero | Broken

  /** How often the stream below was pending, failed, or took none of the bytes it was given. */
  datatype Tally = Tally(waits: nat, faults: nat, zeros: nat) {
    function Waited(): Tally { this.(waits := waits + 1) }

    function Failed(): Tally { this.(faults := faults + 1) }

    function TookNothing(): Tally { this.(zeros := zeros + 1) }

    function AfterRead(r: ReadResult): Tally {
      match r
      case ReadPending => Waited()
      case ReadBroken => Failed()
      case ReadBytes(_) => this
    }

    function AfterWrite(data: Bytes, r: WriteResult): Tally {
      match r
      case WritePending => Waited()
      case WriteBroken => Failed()
      case Wrote(n) => if n == 0 && data != [] then TookNothing() else this
    }

    function After(r: Status): Tally {
      match r
      case Pending => Waited()
      case WriteZero => TookNothing()
      case Broken => Failed()
      case Ready => this
    }
  }

  /** The I/O resource below: an arbitrary byte stream that may deliver its bytes in any
      portions, may accept any portion of a write, and may be pending at any time.
      `incoming` holds all bytes the remote will ever have sent that are still unread. */
  class RawStream {
    var incoming: Bytes
    var written: Bytes
    /** What had been written at the last successful flush. */
    ghost var flushed: Bytes
    ghost var tally: Tally

    constructor (incoming: Bytes)
      ensures this.incoming == incoming && written == []
    {
      this.incoming := incoming;
      written := [];
      flushed := [];
      tally := Tally(0, 0, 0);
    }

    method PollRead(max: nat) returns (r: ReadResult)
      requires max > 0
      modifies this`incoming, this`tally
      ensures tally == old(tally).AfterRead(r)
      ensures !r.ReadBytes? ==> incoming == old(incoming)
      ensures r.ReadBytes? ==> |r.data| <= max && old(incoming) == r.data + incoming
      ensures r.ReadBytes? ==> (r.data == [] <==> old(incoming) == [])
    {
      if * {
        tally := tally.Waited();
        return ReadPending;
      }
      if * {
        tally := tally.Failed();
        return ReadBroken;
      }
      if incoming == [] {
        return ReadBytes([]);
      }
      var n: nat :| 1 <= n <= max && n <= |incoming|;
      r := ReadBytes(incoming[..n]);
      incoming := incoming[n..];
    }

    method PollWrite(data: Bytes) returns (r: WriteResult)
      modifies this`written, this`tally
      ensures tally == old(tally).AfterWrite(data, r)
      ensures !r.Wrote? ==> written == old(written)
      ensures r.Wrote? ==> r.n <= |data| && written == old(written) + data[..r.n]
    {
      if * {
        tally := tally.Waited();
        return WritePending;
      }
      if * {
        tally := tally.Failed();
        return WriteBroken;
      }
      var n: nat :| n <= |data|;
      written := written + data[..n];
      r := Wrote(n);
      tally := tally.AfterWrite(data, r);
    }

    method PollFlush() returns (r: Status)
      modifies this`flushed, this`tally
      ensures tally == old(tally).After(r)
      ensures flushed == if r.Ready? then written else old(flushed)
    {
      if * {
        r := Pending;
      } else if * {
        r := WriteZero;
      } else if * {
        r := Broken;
      } else {
        r := Ready;
        flushed := written;
      }
      tally := tally.After(r);
    }
  }

  datatype ReadState =
    | ReadLength(buf: Bytes, pos: nat)
    | ReadData(len: nat, pos: nat)

  const DEFAULT_READ_STATE := ReadLength([0, 0], 0)

  datatype PollFrame =
    | NotYet
    | Item(frame: Bytes)
    | Eof
    | Malformed(error: ReadError)
    | IoFailure

  /** What a poll of the reader has had from the stream below: it yields nothing only if that was
      pending, and fails only if that did. */
  function AfterFrame(t: Tally, r: PollFrame): Tally {
    match r
    case NotYet => t.Waited()
    case IoFailure => t.Failed()
    case _ => t
  }

  class LengthDelimited {
    const inner: RawStream
    var readBuffer: Bytes
    var writeBuffer: Bytes
    var readState: ReadState

    /** Frames accepted by the sink, and bytes written past it after `IntoReader`. */
    ghost var frames: seq<Bytes>
    ghost var direct: Bytes
    ghost var sinkDropped: bool
    /** `PollReady` has succeeded and no frame was sent since. */
    ghost var ready: bool

    ghost predicate ReaderOk()
      reads this`readState, this`readBuffer
    {
      match readState
      case ReadLength(buf, pos) =>
        && |buf| == MAX_LEN_BYTES && pos <= MAX_LEN_BYTES && readBuffer == []
        && (if pos == 0 then buf == [0, 0] else buf[0] >= 128)
      case ReadData(len, pos) =>
        pos < len <= MAX_FRAME_SIZE && |readBuffer| == len
    }

    /** Nothing accepted is lost, reordered or interleaved, and the buffer is bounded. */
    ghost predicate WriterOk()
      reads this`writeBuffer, this`frames, this`direct, this`sinkDropped, this`ready, inner`written
    {
      && inner.written + writeBuffer == EncodeAll(frames) + direct
      && AllFit(frames)
      && (direct != [] ==> sinkDropped && writeBuffer == [])
      && |writeBuffer| <= 2 * MAX_FRAME_SIZE + 1
      && (ready ==> |writeBuffer| < MAX_FRAME_SIZE)
    }

    /** The reader must not be polled again after a length prefix was too long. */
    predicate CanPoll()
      reads this`readState
    {
      readState.ReadLength? ==> readState.pos < MAX_LEN_BYTES
    }

    predicate AtBoundary()
      reads this`readState, this`readBuffer
    {
      readState == DEFAULT_READ_STATE && readBuffer == []
    }

    /** The bytes read since the last frame boundary. */
    ghost function Partial(): Bytes
      requires ReaderOk()
      reads this`readState, this`readBuffer
    {
      match readState
      case ReadLength(buf, pos) => buf[..pos]
      case ReadData(len, pos) => Varint.Encode(len) + readBuffer[..pos]
    }

    /** The remote's bytes from the last frame boundary on. */
    ghost function Unparsed(): (s: Bytes)
      requires ReaderOk()
      reads this`readState, this`readBuffer, inner`incoming
      ensures AtBoundary() ==> s == inner.incoming
    {
      Partial() + inner.incoming
    }

    constructor (inner: RawStream)
      requires inner.written == []
      ensures ReaderOk() && WriterOk() && AtBoundary() && this.inner == inner
      ensures frames == [] && direct == [] && writeBuffer == [] && !sinkDropped
      ensures Unparsed() == inner.incoming
    {
      this.inner := inner;
      readBuffer := [];
      writeBuffer := [];
      readState := DEFAULT_READ_STATE;
      frames := [];
      direct := [];
      sinkDropped := false;
      ready := false;
    }

    /** `r` is what the pure parser makes of the stream `s`, and the reader now stands
        behind the frame it yielded, or still has all of `s` before it. */
    ghost predicate Yields(s: Bytes, r: PollFrame)
      requires ReaderOk()
      reads this`readState, this`readBuffer, inner`incoming
    {
      match r
      case NotYet => CanPoll() && Unparsed() == s
      case IoFailure => CanPoll() && Unparsed() == s
      case Item(frame) => AtBoundary() && ParseFrame(s) == Frame(frame, inner.incoming)
      case Eof => AtBoundary() && ParseFrame(s) == End
      case Malformed(e) => ParseFrame(s) == Fail(e)
    }

    /** Yields what the pure parser yields on the remote's whole stream, however the
        bytes are portioned; a pending poll loses nothing. It is pending only because the
        stream below is, and goes on until then. */
    method PollNext() returns (r: PollFrame)
      requires ReaderOk() && CanPoll()
      modifies this`readState, this`readBuffer, inner`incoming, inner`tally
      ensures ReaderOk() && Yields(old(Unparsed()), r)
      ensures inner.tally == AfterFrame(old(inner.tally), r)
    {
      var more := true;
      r := NotYet;
      while more
        invariant ReaderOk() && Yields(old(Unparsed()), r)
        invariant more ==> r.NotYet? && inner.tally == old(inner.tally)
        invariant !more ==> inner.tally == AfterFrame(old(inner.tally), r)
        decreases more, |inner.incoming|
      {
        match readState
        case ReadLength(buf, pos) =>
          more, r := PollLength(buf, pos);
        case ReadData(len, pos) =>
          more, r := PollData(len, pos);
      }
    }

    /** Tries to read one byte of the length prefix. */
    method PollLength(buf: Bytes, pos: nat) returns (more: bool, r: PollFrame)
      requires ReaderOk() && CanPoll() && readState == ReadLength(buf, pos)
      modifies this`readState, this`readBuffer, inner`incoming, inner`tally
      ensures ReaderOk() && Yields(old(Unparsed()), r)
      ensures more ==> r.NotYet? && |inner.incoming| < old(|inner.incoming|)
      ensures inner.tally == if more then old(inner.tally) else AfterFrame(old(inner.tally), r)
    {
      ghost var s := Unparsed();
      var got := inner.PollRead(1);
      match got {
        case ReadPending => return false, NotYet;
        case ReadBroken => return false, IoFailure;
        case ReadBytes(data) =>
          if data == [] {
            assert s == buf[..pos];
            return false, if pos == 0 then Eof else Malformed(UnexpectedEof);
          }
          assert data == [data[0]];
          Seqs.Assoc(Partial(), data, inner.incoming);
          r := NextLengthByte(buf, pos, data[0]);
          more := r.NotYet?;
      }
    }

    /** One more byte of the length prefix has arrived. */
    method NextLengthByte(buf: Bytes, pos: nat, b: Byte) returns (r: PollFrame)
      requires ReaderOk() && readState == ReadLength(buf, pos) && pos < MAX_LEN_BYTES
      modifies this`readState, this`readBuffer
      ensures ReaderOk() && Yields(old(Partial()) + [b] + inner.incoming, r) && !r.IoFailure?
    {
      ghost var s := buf[..pos] + [b] + inner.incoming;
      var buf' := buf[pos := b];
      assert buf'[..pos + 1] == buf[..pos] + [b];
      readState := ReadLength(buf', pos + 1);
      if b < 128 {
        LengthOfBuffer(buf', pos + 1);
        match Varint.DecodeU16(buf')
        case Value(len, _) =>
          assert s == Varint.Encode(len) + inner.incoming;
          ParseLengthPrefix(len, inner.incoming);
          if len >= 1 {
            readState := ReadData(len, 0);
            readBuffer := seq(len, i => 0);
            return NotYet;
          }
          readState := DEFAULT_READ_STATE;
          return Item([]);
        case _ =>
          return Malformed(InvalidData);
      } else if pos + 1 == MAX_LEN_BYTES {
        return Malformed(InvalidData);
      }
      r := NotYet;
    }

    /** Tries to read some of the payload. */
    method PollData(len: nat, pos: nat) returns (more: bool, r: PollFrame)
      requires ReaderOk() && readState == ReadData(len, pos)
      modifies this`readState, this`readBuffer, inner`incoming, inner`tally
      ensures ReaderOk() && Yields(old(Unparsed()), r)
      ensures more ==> r.NotYet? && |inner.incoming| < old(|inner.incoming|)
      ensures inner.tally == if more then old(inner.tally) else AfterFrame(old(inner.tally), r)
    {
      var got := inner.PollRead(len - pos);
      match got {
        case ReadPending => return false, NotYet;
        case ReadBroken => return false, IoFailure;
        case ReadBytes(data) =>
          if data == [] {
            assert Unparsed() == Varint.Encode(len) + readBuffer[..pos];
            ParseLengthPrefix(len, readBuffer[..pos]);
            return false, Malformed(UnexpectedEof);
          }
          Seqs.Assoc(Partial(), data, inner.incoming);
          r := NextData(len, pos, data);
          more := r.NotYet?;
      }
    }

    /** Some more bytes of the payload have arrived. */
    method NextData(len: nat, pos: nat, data: Bytes) returns (r: PollFrame)
      requires ReaderOk() && readState == ReadData(len, pos) && 0 < |data| <= len - pos
      modifies this`readState, this`readBuffer
      ensures ReaderOk() && Yields(old(Partial()) + data + inner.incoming, r) && !r.IoFailure?
    {
      ghost var s := Partial() + data + inner.incoming;
      ghost var arrived := readBuffer[..pos] + data;
      Seqs.Splice(readBuffer, pos, data);
      Seqs.AssocRight(Varint.Encode(len), readBuffer[..pos], data, inner.incoming);
      Seqs.Assoc(readBuffer[..pos], data, inner.incoming);
      assert s == Varint.Encode(len) + (arrived + inner.incoming);
      readBuffer := readBuffer[..pos] + data + readBuffer[pos + |data|..];
      if pos + |data| == len {
        var frame := readBuffer;
        assert frame == arrived;
        readBuffer := [];
        readState := DEFAULT_READ_STATE;
        ParseLengthPrefix(len, frame + inner.incoming);
        assert (frame + inner.incoming)[len..] == inner.incoming;
        return Item(frame);
      }
      readState := ReadData(len, pos + |data|);
      Seqs.Assoc(Varint.Encode(len), arrived, inner.incoming);
      r := NotYet;
    }

    /** Hands buffered bytes to the stream below until none are left, and stops before only if that
        is pending, fails, or takes nothing. */
    method PollWriteBuffer() returns (r: Status)
      requires WriterOk()
      modifies this`writeBuffer, inner`written, inner`tally
      ensures WriterOk() && inner.tally == old(inner.tally).After(r)
      ensures r.Ready? ==> writeBuffer == []
      ensures old(inner.written) <= inner.written
      ensures |writeBuffer| <= old(|writeBuffer|)
    {
      while writeBuffer != []
        invariant WriterOk() && inner.tally == old(inner.tally)
        invariant old(inner.written) <= inner.written
        invariant |writeBuffer| <= old(|writeBuffer|)
        decreases |writeBuffer|
      {
        var w := inner.PollWrite(writeBuffer);
        match w {
          case WritePending => return Pending;
          case WriteBroken => return Broken;
          case Wrote(n) =>
            if n == 0 {
              return WriteZero;
            }
            assert writeBuffer == writeBuffer[..n] + writeBuffer[n..];
            writeBuffer := writeBuffer[n..];
        }
      }
      r := Ready;
    }

    method PollReady() returns (r: Status)
      requires WriterOk() && !sinkDropped
      modifies this`writeBuffer, this`ready, inner`written, inner`tally
      ensures WriterOk() && inner.tally == old(inner.tally).After(r)
      ensures r.Ready? ==> ready && |writeBuffer| < MAX_FRAME_SIZE
      ensures old(inner.written) <= inner.written
      ensures old(|writeBuffer|) < MAX_FRAME_SIZE ==> unchanged(`writeBuffer) && unchanged(inner`written)
    {
      if |writeBuffer| >= MAX_FRAME_SIZE {
        r := PollWriteBuffer();
        if !r.Ready? {
          return;
        }
      }
      ready := true;
      r := Ready;
    }

    /** Accepts the frame unless it is too long; nothing else about it can fail. */
    method StartSend(item: Bytes) returns (ok: bool)
      requires WriterOk() && !sinkDropped && ready
      modifies this`writeBuffer, this`frames, this`ready
      ensures WriterOk() && !ready
      ensures ok <==> |item| <= MAX_FRAME_SIZE
      ensures frames == if ok then old(frames) + [item] else old(frames)
      ensures writeBuffer == if ok then old(writeBuffer) + EncodeFrame(item) else old(writeBuffer)
    {
      ready := false;
      if |item| > MAX_FRAME_SIZE {
        return false;
      }
      var prefix := Varint.Encode(|item|);
      if |item| >= 128 {
        LongPrefix(|item|);
      }
      EncodeAllSnoc(frames, item);
      Seqs.Assoc4(inner.written, writeBuffer, prefix, item);
      assert direct == [] && EncodeAll(frames) + direct == EncodeAll(frames);
      assert EncodeAll(frames + [item]) + direct == EncodeAll(frames + [item]);
      Seqs.Assoc(writeBuffer, prefix, item);
      writeBuffer := writeBuffer + prefix + item;
      frames := frames + [item];
      ok := true;
    }

    /** After success every accepted frame has reached the stream below. */
    method PollFlush() returns (r: Status)
      requires WriterOk()
      modifies this`writeBuffer, inner`written, inner`flushed, inner`tally
      ensures WriterOk() && inner.tally == old(inner.tally).After(r)
      ensures r.Ready? ==> writeBuffer == [] && inner.flushed == inner.written == EncodeAll(frames) + direct
      ensures old(inner.written) <= inner.written
    {
      r := PollWriteBuffer();
      if r.Ready? {
        r := inner.PollFlush();
      }
    }

    /** From here on only `PollWriteDirect` may write. */
    method IntoReader()
      requires WriterOk()
      modifies this`sinkDropped
      ensures WriterOk() && sinkDropped
    {
      sinkDropped := true;
    }

    /** Writing past the dropped sink: buffered frames go first, so follow-up data never
        overtakes or splits a negotiation frame. */
    method PollWriteDirect(data: Bytes) returns (r: WriteResult)
      requires WriterOk() && sinkDropped
      modifies this`writeBuffer, this`direct, inner`written, inner`tally
      ensures WriterOk()
      ensures r.WritePending? ==> inner.tally == old(inner.tally).Waited()
      ensures r.Wrote? ==> inner.tally == old(inner.tally).AfterWrite(data, r)
      ensures r.WriteBroken? ==> inner.tally in {old(inner.tally).Failed(), old(inner.tally).TookNothing()}
      ensures r.Wrote? ==> r.n <= |data| && direct == old(direct) + data[..r.n]
      ensures r.Wrote? ==> inner.written == EncodeAll(frames) + direct
      ensures !r.Wrote? ==> direct == old(direct)
    {
      var s := PollWriteBuffer();
      match s {
        case Pending => return WritePending;
        case WriteZero => return WriteBroken;
        case Broken => return WriteBroken;
        case Ready =>
      }
      assert inner.written == EncodeAll(frames) + direct;
      r := inner.PollWrite(data);
      if r.Wrote? {
        assert inner.written == EncodeAll(frames) + (direct + data[..r.n]);
        direct := direct + data[..r.n];
      }
    }

    /** Gives up the framing. The preconditions are the assertions of the source. */
    method IntoInner() returns (io: RawStream)
      requires ReaderOk() && WriterOk()
      requires readBuffer == []
      requires writeBuffer == []
      ensures io == inner
      ensures io.written == EncodeAll(frames) + direct
      ensures AtBoundary() ==> io.incoming == Unparsed()
    {
      io := inner;
    }
  }

  lemma LengthOfBuffer(buf: Bytes, pos: nat)
    requires |buf| == MAX_LEN_BYTES && 1 <= pos <= MAX_LEN_BYTES
    requires buf[pos - 1] < 128 && (pos > 1 ==> buf[0] >= 128)
    ensures match Varint.DecodeU16(buf)
            case Value(len, _) => len <= MAX_FRAME_SIZE && Varint.Encode(len) == buf[..pos]
            case _ => pos == 2 && buf[1] == 0
  {
    if pos == 1 {
      assert Varint.Encode(buf[0]) == [buf[0]] == buf[..1];
    } else {
      TwoByteLength(buf[0], buf[1], buf);
    }
  }

  lemma TwoByteLength(low: Byte, high: Byte, buf: Bytes)
    requires buf == [low, high] && low >= 128 && high < 128
    ensures Varint.DecodeU16(buf).Value? <==> high != 0
    ensures high != 0 ==> var len := Varint.DecodeU16(buf).n; len <= MAX_FRAME_SIZE && Varint.Encode(len) == buf
  {
    assert buf[1..] == [high] && [high][1..] == [];
    if high != 0 {
      LongLengthParts(low, high);
      LongPrefix(LongLength(low, high));
      assert Varint.Digits([high], 2, false) == Varint.Value(high, []);
      assert Varint.Digits(buf, 3, true) == Varint.Value(LongLength(low, high), []);
    } else {
      assert Varint.Digits([high], 2, false) == Varint.NotMinimal;
    }
  }

  lemma TakeOne(s: Bytes, frames: seq<Bytes>, before: Bytes, frame: Bytes, rest: Bytes)
    requires s == EncodeAll(frames) + before && ParseFrame(before) == Frame(frame, rest)
    ensures s == EncodeAll(frames + [frame]) + rest && |frame| <= MAX_FRAME_SIZE
  {
    ParsesExactlyEncodings(before, frame, rest);
    EncodeAllSnoc(frames, frame);
    Seqs.Assoc(EncodeAll(frames), EncodeFrame(frame), rest);
  }

  lemma TakeLast(s: Bytes, frames: seq<Bytes>, before: Bytes)
    requires s == EncodeAll(frames) + before && AllFit(frames) && !ParseFrame(before).Frame?
    ensures ParseAll(s) == Contents(frames, ParseFrame(before))
  {
    ParseAllInvertsEncodeAll(frames, before);
  }

  /** Polling a reader any number of times, as a consumer collecting frames does. The
      frames obtained are the first frames of the stream, in order, and exactly their
      encoded length has been consumed. */
  method Collect(ld: LengthDelimited, polls: nat) returns (frames: seq<Bytes>, last: PollFrame)
    requires ld.ReaderOk() && ld.CanPoll()
    modifies ld`readState, ld`readBuffer, ld.inner`incoming, ld.inner`tally
    ensures ld.ReaderOk()
    ensures AllFit(frames)
    ensures last.NotYet? ==> |frames| + ld.inner.tally.waits == polls + old(ld.inner.tally.waits)
    ensures last.NotYet? || last.IoFailure? ==>
              ld.CanPoll() && old(ld.Unparsed()) == EncodeAll(frames) + ld.Unparsed()
    ensures last.Eof? ==> ParseAll(old(ld.Unparsed())) == Contents(frames, End)
    ensures last.Malformed? ==> ParseAll(old(ld.Unparsed())) == Contents(frames, Fail(last.error))
    ensures !last.Item?
  {
    frames := [];
    last := NotYet;
    var n := polls;
    while n > 0
      invariant ld.ReaderOk() && ld.CanPoll() && AllFit(frames) && last.NotYet?
      invariant old(ld.Unparsed()) == EncodeAll(frames) + ld.Unparsed()
      invariant 0 <= n <= polls && n + |frames| + ld.inner.tally.waits == polls + old(ld.inner.tally.waits)
    {
      ghost var before := ld.Unparsed();
      var r := ld.PollNext();
      match r {
        case NotYet =>
        case Item(frame) =>
          TakeOne(old(ld.Unparsed()), frames, before, frame, ld.inner.incoming);
          frames := frames + [frame];
        case IoFailure =>
          last := r;
          return;
        case _ =>
          TakeLast(old(ld.Unparsed()), frames, before);
          last := r;
          return;
      }
      n := n - 1;
    }
  }
}
