/** The multistream-select messages and their byte representation. */
module Messages {
  import Seqs
  import opened Varint
  import opened FrameGrammar
  import opened Wrappers

  const MAX_PROTOCOLS := 1000

  const LF: Byte := 10
  const SLASH: Byte := 47

  /** `/multistream/1.0.0` */
  const HEADER_NAME: Bytes :=
    [47, 109, 117, 108, 116, 105, 115, 116, 114, 101, 97, 109, 47, 49, 46, 48, 46, 48]

  const MSG_MULTISTREAM_1_0: Bytes := HEADER_NAME + [LF]

  /** `na` and `ls`, each with its line feed. */
  const MSG_PROTOCOL_NA: Bytes := [110, 97, 10]
  const MSG_LS: Bytes := [108, 115, 10]

  function AsciiByte(c: char): Byte {
    if c < 128 as char then c as int else 0
  }

  function Ascii(s: string): Bytes {
    seq(|s|, i requires 0 <= i < |s| => AsciiByte(s[i]))
  }

  /** The three fixed messages, as text. */
  lemma FixedMessagesSpell()
    ensures MSG_MULTISTREAM_1_0 == Ascii("/multistream/1.0.0\n")
    ensures MSG_PROTOCOL_NA == Ascii("na\n") && MSG_LS == Ascii("ls\n")
  {
  }

  type Name = Bytes

  /** What `Protocol::try_from` accepts. */
  predicate WellFormed(n: Name) {
    n != [] && n[0] == SLASH
  }

  datatype Message =
    | Header
    | Protocol(name: Name)
    | ListProtocols
    | Protocols(names: seq<Name>)
    | NotAvailable

  datatype ProtocolError =
    | IoError(kind: ReadError)
    | StreamBroken
    | InvalidMessage
    | InvalidProtocol
    | TooManyProtocols

  function EncodeList(names: seq<Name>): Bytes {
    if names == [] then []
    else Varint.Encode(|names[0]| + 1) + (names[0] + [LF]) + EncodeList(names[1..])
  }

  function Encode(m: Message): Bytes {
    match m
    case Header => MSG_MULTISTREAM_1_0
    case Protocol(name) => name + [LF]
    case ListProtocols => MSG_LS
    case Protocols(names) => EncodeList(names) + [LF]
    case NotAvailable => MSG_PROTOCOL_NA
  }

  /** The entries of an `ls` response; `done` of them were read before. */
  function DecodeList(remaining: Bytes, done: nat): Result<seq<Name>, ProtocolError>
    decreases |remaining|
  {
    if remaining == [LF] then Ok([])
    else if done == MAX_PROTOCOLS then Err(TooManyProtocols)
    else
      match DecodeUsize(remaining)
      case Value(len, tail) =>
        if len == 0 || len > |tail| || tail[len - 1] != LF then Err(InvalidMessage)
        else if !WellFormed(tail[..len - 1]) then Err(InvalidProtocol)
        else (
          match DecodeList(tail[len..], done + 1)
          case Ok(names) => Ok([tail[..len - 1]] + names)
          case Err(e) => Err(e)
        )
      case _ => Err(IoError(InvalidData))
  }

  predicate IsNameLine(msg: Bytes) {
    |msg| > 0 && msg[0] == SLASH && msg[|msg| - 1] == LF && LF !in msg[..|msg| - 1]
  }

  function Decode(msg: Bytes): Result<Message, ProtocolError> {
    if msg == MSG_MULTISTREAM_1_0 then Ok(Header)
    else if msg == MSG_PROTOCOL_NA then Ok(NotAvailable)
    else if msg == MSG_LS then Ok(ListProtocols)
    else if IsNameLine(msg) then Ok(Protocol(msg[..|msg| - 1]))
    else
      match DecodeList(msg, 0)
      case Ok(names) => Ok(Protocols(names))
      case Err(e) => Err(e)
  }

  /** Names as the `Protocol` type admits them; a slice is shorter than 2^63 bytes. */
  predicate NameInvariant(n: Name) {
    WellFormed(n) && |n| < 0x7FFF_FFFF_FFFF_FFFF
  }

  ghost predicate MessageInvariant(m: Message) {
    match m
    case Protocol(name) => NameInvariant(name)
    case Protocols(names) => forall n | n in names :: NameInvariant(n)
    case _ => true
  }

  /** The messages that survive the wire. */
  predicate Readable(m: Message) {
    match m
    case Protocol(name) => LF !in name && name != HEADER_NAME
    case Protocols(names) => |names| <= MAX_PROTOCOLS
    case _ => true
  }

  lemma DecodeListStep(n: Name, more: Bytes, done: nat)
    requires NameInvariant(n) && done < MAX_PROTOCOLS
    ensures DecodeList(Varint.Encode(|n| + 1) + ((n + [LF]) + more), done)
         == match DecodeList(more, done + 1)
            case Ok(names) => Ok([n] + names)
            case Err(e) => Err(e)
  {
    var line := n + [LF];
    var tail := line + more;
    UsizeRoundTrip(|line|, tail);
    assert tail[..|n|] == n && tail[|n|] == LF && tail[|line|..] == more;
    assert |Varint.Encode(|line|) + tail| > 1;
  }

  lemma {:induction false} DecodeListOfEncodeList(names: seq<Name>, done: nat)
    requires forall n | n in names :: NameInvariant(n)
    requires done <= MAX_PROTOCOLS
    ensures DecodeList(EncodeList(names) + [LF], done)
         == if done + |names| <= MAX_PROTOCOLS then Ok(names) else Err(TooManyProtocols)
  {
    if names == [] {
      assert EncodeList(names) + [LF] == [LF];
    } else if done == MAX_PROTOCOLS {
      assert |EncodeList(names)| >= 1;
    } else {
      var n := names[0];
      assert NameInvariant(n);
      var more := EncodeList(names[1..]) + [LF];
      Seqs.AssocRight(Varint.Encode(|n| + 1), n + [LF], EncodeList(names[1..]), [LF]);
      DecodeListStep(n, more, done);
      DecodeListOfEncodeList(names[1..], done + 1);
      Seqs.HeadTail(names);
    }
  }

  lemma ListEncodingEnds(names: seq<Name>)
    ensures names == [] ==> Encode(Protocols(names)) == [LF]
    ensures names != [] ==> var e := Encode(Protocols(names)); |e| >= 2 && e[|e| - 2] == LF == e[|e| - 1]
    decreases |names|
  {
    if names != [] {
      var head := Varint.Encode(|names[0]| + 1) + (names[0] + [LF]);
      assert Encode(Protocols(names)) == head + Encode(Protocols(names[1..]));
      ListEncodingEnds(names[1..]);
    }
  }

  lemma ListLooksLikeNothingElse(names: seq<Name>)
    ensures var e := Encode(Protocols(names));
            e != MSG_MULTISTREAM_1_0 && e != MSG_PROTOCOL_NA && e != MSG_LS && !IsNameLine(e)
  {
    var e := Encode(Protocols(names));
    ListEncodingEnds(names);
    if names != [] {
      assert MSG_MULTISTREAM_1_0[|MSG_MULTISTREAM_1_0| - 2] == 48;
      assert e[..|e| - 1][|e| - 2] == LF;
    }
  }

  /** A list comes back as it was, unless it has too many names. */
  lemma ListDecodes(names: seq<Name>)
    requires forall n | n in names :: NameInvariant(n)
    ensures Decode(Encode(Protocols(names)))
         == if |names| <= MAX_PROTOCOLS then Ok(Protocols(names)) else Err(TooManyProtocols)
  {
    ListLooksLikeNothingElse(names);
    DecodeListOfEncodeList(names, 0);
  }

  /** Decoding inverts encoding exactly for the readable messages: a name that contains
      a line feed, the name that spells the header line, and lists of more than 1000
      names do not come back. */
  lemma RoundTripIff(m: Message)
    requires MessageInvariant(m)
    ensures Decode(Encode(m)) == Ok(m) <==> Readable(m)
  {
    var e := Encode(m);
    match m
    case Protocol(name) =>
      assert e[..|e| - 1] == name && e[0] == SLASH;
      assert e == MSG_MULTISTREAM_1_0 <==> name == HEADER_NAME by {
        assert MSG_MULTISTREAM_1_0[..|MSG_MULTISTREAM_1_0| - 1] == HEADER_NAME;
      }
    case Protocols(names) => ListDecodes(names);
    case _ =>
  }

  /** What can be wrong with a whole frame: it never looks as if it were cut short. */
  lemma {:induction false} DecodeListErrors(remaining: Bytes, done: nat)
    ensures match DecodeList(remaining, done)
            case Err(e) => e in {InvalidMessage, InvalidProtocol, TooManyProtocols, IoError(InvalidData)}
            case Ok(_) => true
    decreases |remaining|
  {
    if remaining != [LF] && done != MAX_PROTOCOLS {
      var d := DecodeUsize(remaining);
      if d.Value? && 0 < d.n <= |d.rest| {
        DecodeListErrors(d.rest[d.n..], done + 1);
      }
    }
  }

  // ----------------------------------------------------------- what is decoded

  /** No length in the list is written with more bits than a length has. */
  predicate LengthsInRange(s: Bytes)
    decreases |s|
  {
    s == [LF] ||
    match Digits(s, 10, true)
    case Value(len, tail) => len < 0x1_0000_0000_0000_0000 && (0 < len <= |tail| ==> LengthsInRange(tail[len..]))
    case _ => true
  }

  /** A list that is decoded has valid names, and is the encoding of these exactly if its lengths
      are in range; the others are read without their leading bits. */
  lemma {:induction false} DecodeListInvertsIff(s: Bytes, done: nat)
    requires done <= MAX_PROTOCOLS && DecodeList(s, done).Ok?
    ensures var names := DecodeList(s, done).value;
            && (forall n | n in names :: WellFormed(n)) && done + |names| <= MAX_PROTOCOLS
            && (s == EncodeList(names) + [LF] <==> LengthsInRange(s))
    decreases |s|
  {
    if s == [LF] {
      assert EncodeList([]) + [LF] == [LF];
    } else {
      DecodedEntry(s, done);
      var d, names := DecodeUsize(s), DecodeList(s, done).value;
      var rest := d.rest[d.n..];
      DecodeListInvertsIff(rest, done + 1);
      assert names[1..] == DecodeList(rest, done + 1).value;
      assert d.rest == (names[0] + [LF]) + rest;
      DigitsInvert(s, 10, true);
      EntryIsEncoded(s, Digits(s, 10, true).n, d.n, d.rest, names, rest);
      EntryInRange(s);
    }
  }

  lemma DecodedEntry(s: Bytes, done: nat)
    requires s != [LF] && done <= MAX_PROTOCOLS && DecodeList(s, done).Ok?
    ensures done < MAX_PROTOCOLS && DecodeUsize(s).Value?
    ensures var d := DecodeUsize(s);
            && 0 < d.n <= |d.rest| && d.rest[d.n - 1] == LF && WellFormed(d.rest[..d.n - 1])
            && DecodeList(d.rest[d.n..], done + 1).Ok?
            && DecodeList(s, done).value == [d.rest[..d.n - 1]] + DecodeList(d.rest[d.n..], done + 1).value
  {
  }

  lemma EntryInRange(s: Bytes)
    requires s != [LF] && DecodeUsize(s).Value? && 0 < DecodeUsize(s).n <= |DecodeUsize(s).rest|
    ensures var d := DecodeUsize(s);
            LengthsInRange(s) <==> Digits(s, 10, true).n == d.n && LengthsInRange(d.rest[d.n..])
  {
  }

  lemma EntryIsEncoded(s: Bytes, digits: nat, len: nat, tail: Bytes, names: seq<Name>, rest: Bytes)
    requires s == Varint.Encode(digits) + tail && names != [] && len == |names[0]| + 1
    requires tail == (names[0] + [LF]) + rest
    ensures s == EncodeList(names) + [LF] <==> digits == len && rest == EncodeList(names[1..]) + [LF]
  {
    var line, more := names[0] + [LF], EncodeList(names[1..]);
    Seqs.AssocRight(Varint.Encode(len), line, more, [LF]);
    assert EncodeList(names) + [LF] == Varint.Encode(len) + (line + (more + [LF]));
    if s == EncodeList(names) + [LF] {
      PrefixFree(digits, len, tail, line + (more + [LF]));
      assert rest == tail[|line|..] == more + [LF];
    }
  }

  /** What is decoded has valid names, and is the encoding of the message exactly if it is no list
      or the lengths in it are in range. */
  lemma DecodeInvertsIff(b: Bytes)
    requires Decode(b).Ok?
    ensures match Decode(b).value
            case Header => b == Encode(Header)
            case NotAvailable => b == Encode(NotAvailable)
            case ListProtocols => b == Encode(ListProtocols)
            case Protocol(n) => b == Encode(Protocol(n)) && WellFormed(n) && Readable(Protocol(n))
            case Protocols(names) =>
              && (forall n | n in names :: WellFormed(n)) && |names| <= MAX_PROTOCOLS
              && (b == Encode(Protocols(names)) <==> LengthsInRange(b))
  {
    var m := Decode(b).value;
    if m.Protocol? {
      assert b == b[..|b| - 1] + [LF];
    } else if m.Protocols? {
      DecodeListInvertsIff(b, 0);
    }
  }

  /** A length of 2^64 + 2 is read as 2: this decodes to a list of one name, and is not its
      encoding. */
  lemma OverlongLengthDecodes()
    ensures var b := [130, 128, 128, 128, 128, 128, 128, 128, 128, 2, SLASH, LF, LF];
            Decode(b) == Ok(Protocols([[SLASH]])) && b != Encode(Protocols([[SLASH]]))
  {
    var tail: Bytes := [SLASH, LF, LF];
    var n: nat := 0x1_0000_0000_0000_0002;
    OverlongDigits(tail);
    var b: Bytes := [130, 128, 128, 128, 128, 128, 128, 128, 128, 2] + tail;
    assert b == [130, 128, 128, 128, 128, 128, 128, 128, 128, 2, SLASH, LF, LF];
    assert DecodeUsize(b) == Value(2, tail);
    assert tail[..1] == [SLASH] && tail[2..] == [LF];
    assert DecodeList([LF], 1) == Ok([]);
    var names: seq<Name> := [[SLASH]];
    assert names + [] == names && DecodeList(b, 0) == Ok(names);
    var one: Bytes := [2];
    assert names[1..] == [] && Varint.Encode(2) == one;
    assert |EncodeList(names)| == 3;
  }

  lemma OverlongDigits(tail: Bytes)
    ensures Digits([130, 128, 128, 128, 128, 128, 128, 128, 128, 2] + tail, 10, true) ==
            Value(0x1_0000_0000_0000_0002, tail)
  {
    var s: Bytes := [130, 128, 128, 128, 128, 128, 128, 128, 128, 2] + tail;
    assert s[9..] == [2] + tail && ([2] + tail)[1..] == tail;
    assert Digits(s[9..], 1, false) == Value(2, tail);
    ZerosAhead(s, 9, 8, 2, tail);
    assert 2 * Power128(8) == 0x200_0000_0000_0000;
    assert s[1..] == s[9 - 8..];
  }

  function Power128(k: nat): nat {
    if k == 0 then 1 else 128 * Power128(k - 1)
  }

  lemma {:induction false} ZerosAhead(s: Bytes, at: nat, k: nat, n: nat, tail: Bytes)
    requires k <= at < |s| && Digits(s[at..], 1, false) == Value(n, tail)
    requires forall i | at - k <= i < at :: s[i] == 128
    ensures Digits(s[at - k..], k + 1, false) == Value(n * Power128(k), tail)
  {
    if k > 0 {
      ZerosAhead(s, at, k - 1, n, tail);
      assert s[at - k..][1..] == s[at - (k - 1)..];
      assert n * (128 * Power128(k - 1)) == 128 * (n * Power128(k - 1));
    }
  }

  /** One entry of a list: a length, and as many bytes that are a valid name and a line feed. */
  predicate IsEntry(s: Bytes, n: Name, rest: Bytes) {
    match DecodeUsize(s)
    case Value(len, tail) =>
      && 0 < len <= |tail| && tail[len - 1] == LF && tail[..len - 1] == n && tail[len..] == rest && WellFormed(n)
    case _ => false
  }

  /** The list begins with these names. */
  ghost predicate Entries(s: Bytes, names: seq<Name>, rest: Bytes)
    decreases |names|
  {
    if names == [] then s == rest else exists more :: IsEntry(s, names[0], more) && Entries(more, names[1..], rest)
  }

  /** Why reading stops at these bytes, after so many names. */
  predicate StopsWith(s: Bytes, done: nat, e: ProtocolError) {
    && s != [LF]
    && if done == 1000 then e == TooManyProtocols
       else match DecodeUsize(s)
         case Value(len, tail) =>
           if len == 0 || len > |tail| || tail[len - 1] != LF then e == InvalidMessage
           else e == InvalidProtocol && (len == 1 || tail[0] != SLASH)
         case _ => e == IoError(InvalidData)
  }

  /** A list is read up to the first entry that is none, which says what is wrong with it, or up to
      a line feed alone. */
  lemma {:induction false} DecodeListStops(s: Bytes, done: nat) returns (names: seq<Name>, rest: Bytes)
    requires done <= MAX_PROTOCOLS
    ensures Entries(s, names, rest) && done + |names| <= MAX_PROTOCOLS
    ensures match DecodeList(s, done)
            case Ok(all) => all == names && rest == [LF]
            case Err(e) => StopsWith(rest, done + |names|, e)
    decreases |s|
  {
    if s != [LF] && done < MAX_PROTOCOLS && HasEntry(s) {
      var d := DecodeUsize(s);
      var more;
      more, rest := DecodeListStops(d.rest[d.n..], done + 1);
      names := [d.rest[..d.n - 1]] + more;
      EntryGoesOn(s, done);
      assert IsEntry(s, names[0], d.rest[d.n..]) && names[1..] == more;
    } else {
      names, rest := [], s;
      NoEntryStops(s, done);
    }
  }

  predicate HasEntry(s: Bytes) {
    match DecodeUsize(s)
    case Value(len, tail) => 0 < len <= |tail| && tail[len - 1] == LF && WellFormed(tail[..len - 1])
    case _ => false
  }

  lemma NoEntryStops(s: Bytes, done: nat)
    requires done <= MAX_PROTOCOLS && (s == [LF] || done == MAX_PROTOCOLS || !HasEntry(s))
    ensures DecodeList(s, done).Ok? ==> DecodeList(s, done).value == [] && s == [LF]
    ensures DecodeList(s, done).Err? ==> StopsWith(s, done, DecodeList(s, done).error)
  {
  }

  lemma EntryGoesOn(s: Bytes, done: nat)
    requires s != [LF] && done < MAX_PROTOCOLS && HasEntry(s)
    ensures var d := DecodeUsize(s);
            var more := DecodeList(d.rest[d.n..], done + 1);
            DecodeList(s, done) == if more.Ok? then Ok([d.rest[..d.n - 1]] + more.value) else Err(more.error)
  {
  }

  lemma HeaderNameDoesNotRoundTrip()
    ensures WellFormed(HEADER_NAME)
    ensures Decode(Encode(Protocol(HEADER_NAME))) == Ok(Header)
  {
  }

  /** One thing read from a message stream. */
  datatype Item = Good(msg: Message) | Bad(error: ProtocolError)

  function ItemOf(frame: Bytes): Item {
    match Decode(frame)
    case Ok(m) => Good(m)
    case Err(e) => Bad(e)
  }

  /** What the peer reads when `m` is sent. */
  function Wire(m: Message): Item {
    ItemOf(Encode(m))
  }

  function WireAll(ms: seq<Message>): (items: seq<Item>)
    ensures |items| == |ms|
    ensures forall i | 0 <= i < |ms| :: items[i] == Wire(ms[i])
  {
    seq(|ms|, i requires 0 <= i < |ms| => Wire(ms[i]))
  }

  lemma WireAllCons(m: Message, ms: seq<Message>)
    ensures WireAll([m] + ms) == [Wire(m)] + WireAll(ms)
  {
    var a, b := WireAll([m] + ms), [Wire(m)] + WireAll(ms);
    forall i | 0 <= i < |a| ensures a[i] == b[i] {
      assert i > 0 ==> ([m] + ms)[i] == ms[i - 1];
    }
  }

  lemma WireAllTwo(m: Message, m': Message, ms: seq<Message>)
    ensures WireAll([m, m'] + ms) == [Wire(m), Wire(m')] + WireAll(ms)
  {
    Seqs.TwoAndMore(m, m', ms);
    WireAllCons(m, [m'] + ms);
    WireAllCons(m', ms);
    Seqs.TwoAndMore(Wire(m), Wire(m'), WireAll(ms));
  }

  /** The sink refuses a message whose encoding is no frame. */
  predicate Sendable(m: Message) {
    |Encode(m)| <= MAX_FRAME_SIZE
  }

  lemma ReadableArrives(m: Message)
    requires MessageInvariant(m) && Readable(m)
    ensures Wire(m) == Good(m)
  {
    RoundTripIff(m);
  }

  /** Everything a message reader can ever get out of a finished byte stream. */
  function Items(s: Bytes): seq<Item>
    decreases |s|
  {
    match ParseFrame(s)
    case Frame(payload, rest) =>
      ParsesExactlyEncodings(s, payload, rest);
      [ItemOf(payload)] + Items(rest)
    case End => []
    case Fail(e) => [Bad(IoError(e))]
  }

  function EncodeStream(ms: seq<Message>): Bytes {
    if ms == [] then [] else EncodeFrame(Encode(ms[0])) + EncodeStream(ms[1..])
  }

  lemma ItemsStep(frame: Bytes, rest: Bytes)
    requires |frame| <= MAX_FRAME_SIZE
    ensures Items(EncodeFrame(frame) + rest) == [ItemOf(frame)] + Items(rest)
  {
    ParsesExactlyEncodings(EncodeFrame(frame) + rest, frame, rest);
  }

  /** Messages sent one after the other are read one after the other, and the reader
      then continues with the bytes that follow them. */
  lemma {:induction false} ItemsOfSent(ms: seq<Message>, tail: Bytes)
    requires forall m | m in ms :: Sendable(m)
    ensures Items(EncodeStream(ms) + tail) == WireAll(ms) + Items(tail)
  {
    if ms == [] {
      assert EncodeStream(ms) + tail == tail;
      assert WireAll(ms) + Items(tail) == Items(tail);
    } else {
      var m := ms[0];
      assert Sendable(m);
      var rest := EncodeStream(ms[1..]) + tail;
      Seqs.Assoc(EncodeFrame(Encode(m)), EncodeStream(ms[1..]), tail);
      ItemsStep(Encode(m), rest);
      ItemsOfSent(ms[1..], tail);
      Seqs.HeadTail(ms);
      WireAllCons(m, ms[1..]);
      Seqs.Assoc([Wire(m)], WireAll(ms[1..]), Items(tail));
    }
  }
}
