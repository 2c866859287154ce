# A model of rust-libp2p's negotiation, swarm and address book

This project models seven parts of rust-libp2p in Dafny and proves what they promise.
`dafny verify dfyconfig.toml` checks all of it.

**Protocol negotiation** (`misc/multistream-select`). A dialer and a listener exchange
length-delimited messages until they agree on a protocol name. The model has five layers.

- *Bytes.* `FrameGrammar` is a pure grammar of frames. `LengthDelimited` is the incremental
  reader and buffered writer, over a stream that delivers and accepts bytes in arbitrary
  portions. The reader yields exactly what the grammar yields, and the writer loses,
  reorders and interleaves nothing. The stream below keeps a tally of the times it was not
  ready, failed, or took nothing, and remembers what was flushed: a poll is pending exactly if
  the stream was not ready, and fails only if the stream did.
- *Messages.* `Messages` is the codec, and `MessageIO` the message stream on top of frames.
- *Sides.* `Negotiation` describes each side as a function of what it has read: what it has
  put into its buffer, and where it stands. The classes in `Endpoints` are the poll loops of
  both dialer futures, of the `Negotiated` stream of an early settlement, and of the listener
  future. For every remote and every delivery of its bytes they compute that function.
  `NegotiationPeers` says what that function does with a peer that may send anything: a dialer
  agrees exactly on reading the name it has proposed last, a listener exactly on reading a
  name that it supports and can confirm.
- *The conversation.* `NegotiationRuns` puts a dialer, a listener, their unflushed buffers and
  the messages in flight into one transition system. What the two sides say to each other is
  the common fixpoint of their two functions. Agreement, progress and termination hold for
  all names and every interleaving. When strategy, size hint and laziness change the outcome,
  and when they do not, is stated exactly.
- *Pipes.* `NegotiationPipes` joins the two classes of `Endpoints` by two byte streams, with
  application data that a dialer writes early, and with writes that fail. They end as the
  conversation does, or the dialer is cut off before it has written all it had to say. An
  agreement hands over each stream at its first byte of application data.

**The address book** (`swarm/src/registry.rs`). A ranked list of addresses with a bounded
history of reports. It agrees with a sliding-window sum, although expiry only looks at the
last record. The documented iteration order does not always hold; the exact condition is
proved.

**Reports to the behaviour** (`swarm/src/lib.rs`, with the call-tracing behaviour of
`swarm/src/test.rs` as oracle). Across banning and unbanning, the behaviour's picture of open
connections is the pool's, less the withheld ones. Which ones these are follows from the run: the
behaviour hears of a connection exactly if the last ban of its peer before the connection was
established has been lifted by then. The oracle's assertions appear as
assertions of the class `CallTraceBehaviour` and as the predicate `OraclePasses`. One of them
can fail; the exact condition is proved.

**Delivery to handlers** (`swarm/src/lib.rs`). One slot holds an undelivered event. Every
emitted event is accepted once, is still pending, or has failed at every connection captured
when it was emitted. Every round that gets that far tries the pending event, and one that a
candidate accepts is not left waiting. `SwarmLoop.Swarm` is the poll loop with both parts.

**The in-memory transport** (`core/src/transport/memory.rs`). Ports have exactly one holder in
every interleaving of listening, dialling, completing and dropping. A dial reaches the listener
that held its port, and a listener is sent nothing but dials of its port.

**The derive macro** (`swarm-derive/src/lib.rs`). The generators are loops over the fields;
the generated code is given a meaning, and routing and peeling are proved for any number of
fields.

**Signed envelopes** (`core/src/signed_envelope.rs`, following "Signature Production /
Verification" of libp2p RFC 0002). The signed bytes read as domain, type and payload, and as nothing
else.

## Where code and documentation disagree

The model follows the code.

- Addresses are documented to be iterated by descending score
  (`swarm/src/registry.rs:26-60`). A newly inserted address is appended without sorting, so a
  higher score can come last: `NotAlwaysDescending`, `AddKeepsDescendingIff`.
- A listener that has just rejected a proposal is meant to treat unreadable data as a graceful
  failure. It does so if and only if the stream ends inside the first frame, or that frame
  decodes to an invalid message. Any other unreadable frame or length is raised as an error:
  `GarbageIsGracefulIff`, `UngracefulGarbage`.
- The parallel dialer is meant as an optimisation only. Its negotiations end like those of the
  serial one exactly if both ways are safe, or spoilt by the same error: `StrategiesAgreeIff`.
  Asking for the list is safe if it arrives, with at most 1000 names in one frame, and the name
  picked can be told over the wire. Trying names in turn is safe if no name that cannot be told
  comes before a supported one; there is one further, excused case (`SafeInTurn`).
  Counterexamples are `ManyNamesMatter`, `InvalidNameMatters` and `GarbledNameMatters`.
- Settling early is meant to be the only effect of the lazy version
  (`misc/multistream-select/src/dialer_select.rs:207-210`). A dialer that has settled on a name
  that arrives garbled ends with an error instead of a failure: `LazyEndsAlikeIff`.
- A stream taken back out of an early settlement is meant to have an empty write buffer, and
  this is asserted (`misc/multistream-select/src/length_delimited.rs:96-100`). Flushing may have
  failed before with a write of zero bytes
  (`misc/multistream-select/src/negotiated.rs:118-125`). The assertion then fails for a peer that
  confirms what it was not told: `EarlySettlementReleasedIff`, `UnpromptedConfirmation`. It
  holds against the listener of this repository: `AgreedDialerIsDrained`, `AgreedHasWrittenAll`.
- The oracle expects a connection to be closed at the endpoint it was established at
  (`swarm/src/test.rs:319-325`). An address change in between alters the endpoint:
  `OracleFiresIff`, `MovingFires`.
- Every message is meant to survive encoding and decoding. Names containing a line feed, the
  name that spells the header, and lists of more than 1000 names do not: `RoundTripIff`.
- A decoded list is meant to be an encoded one. The length of an entry may take ten bytes and is
  cut off at 64 bits, so a list can be read that nobody writes: `OverlongLengthDecodes`. Decoding
  is inverted by encoding exactly if no length exceeds 64 bits: `DecodeInvertsIff`.
- Listening on an occupied port is documented to fail with `AlreadyInUse`
  (`core/src/transport/memory.rs:219-224`). It fails with `Unreachable`: `Transport.ListenOn`.
- The derive macro peels handlers by the field's position among all fields. With an ignored
  first field the generated code has no type: `PeelingReturnsOwnIff`.

## Model

| member | source | states |
|---|---|---|
| `Varint.DigitsOfEncode` | misc/multistream-select/src/length_delimited.rs:163-183 | decoding a variable-length integer inverts encoding and leaves exactly the following bytes |
| `Varint.DigitsInvert` | misc/multistream-select/src/length_delimited.rs:163-183 | whatever is decoded was the encoding of that number, followed by what is left: there is no second way of writing it |
| `Varint.UsizeRoundTrip` | misc/multistream-select/src/protocol.rs:189-216 | lengths inside a protocol list are read back as written |
| `Varint.PrefixFree` | core/src/signed_envelope.rs:111-140 | no length prefix is a proper prefix of another one |
| `FrameGrammar.ParsesExactlyEncodings` | misc/multistream-select/src/length_delimited.rs:151-220 | a parse yields a payload and a rest if and only if the bytes are that payload's encoding followed by the rest, and the payload has at most 16383 bytes |
| `FrameGrammar.CutShortExactlyInsideAFrame` | misc/multistream-select/src/length_delimited.rs:161-201 | an unexpected end is reported if and only if the bytes are a proper, non-empty prefix of some frame |
| `FrameGrammar.ParseAllInvertsEncodeAll` | misc/multistream-select/src/length_delimited.rs:246-266 | parsing a written sequence of frames gives back these frames, then whatever the tail gives |
| `FrameGrammar.StreamIsItsFrames` | misc/multistream-select/src/length_delimited.rs:151-220 | every byte stream is the encoding of the frames parsed from it, followed by an unparsed tail |
| `FrameGrammar.SameFrames` | misc/multistream-select/src/length_delimited.rs:151-220 | streams that begin with equally many frames are equal only if frames and remainders are |
| `LengthDelimitedIo.LengthDelimited.PollNext` | misc/multistream-select/src/length_delimited.rs:151-220 | for every stream and every portioning, the next frame, end or error is that of the pure grammar; it is pending exactly if the stream below was not ready, which is asked no further then, and fails for want of the stream exactly if that failed; a pending poll loses nothing; after a frame the reader stands at its last byte |
| `LengthDelimitedIo.LengthDelimited.NextLengthByte` | misc/multistream-select/src/length_delimited.rs:168-188 | one more length byte keeps the reader in step with the grammar; a second byte with its top bit set is invalid data |
| `LengthDelimitedIo.LengthDelimited.NextData` | misc/multistream-select/src/length_delimited.rs:190-217 | more payload keeps the reader in step with the grammar and completes the frame at its length |
| `LengthDelimitedIo.LengthOfBuffer` | misc/multistream-select/src/length_delimited.rs:171-186 | the two-byte buffer decodes to at most 16383, to exactly the bytes read so far, and otherwise only because of a superfluous zero digit |
| `LengthDelimitedIo.TwoByteLength` | misc/multistream-select/src/length_delimited.rs:171-186 | a length of two bytes is valid if and only if its second digit is not zero, and is then the one that is written like that |
| `LengthDelimitedIo.Collect` | misc/multistream-select/src/length_delimited.rs:151-220 | any number of polls collects the first frames of the stream in order, having consumed exactly their encoded length; an end or error comes where the grammar has it; every poll that brought no frame was one at which the stream below was not ready |
| `LengthDelimitedIo.LengthDelimited.PollWriteBuffer` | misc/multistream-select/src/length_delimited.rs:118-142 | bytes handed down plus buffer stay the encodings of the accepted frames and the direct writes, in order; it is pending, broken or without success exactly if the stream below was not ready, failed, or took nothing |
| `LengthDelimitedIo.LengthDelimited.PollReady` | misc/multistream-select/src/length_delimited.rs:229-244 | readiness leaves fewer than 16383 bytes buffered; with fewer than that nothing is handed down; any other answer is that of the stream below |
| `LengthDelimitedIo.LengthDelimited.StartSend` | misc/multistream-select/src/length_delimited.rs:246-266 | accepts a frame exactly if it is not too long; after readiness the buffer never exceeds 32767 bytes |
| `LengthDelimitedIo.LengthDelimited.PollFlush` | misc/multistream-select/src/length_delimited.rs:268-281 | success means that every accepted frame has been handed down, and that the stream below was flushed after it; any other answer is that of the stream below |
| `LengthDelimitedIo.LengthDelimited.PollWriteDirect` | misc/multistream-select/src/length_delimited.rs:341-358 | follow-up data goes out only after all buffered frames, never in between, and as much of it as the stream below takes; it is pending or fails only because the stream below is or does |
| `LengthDelimitedIo.LengthDelimited.IntoInner` | misc/multistream-select/src/length_delimited.rs:96-100 | with empty buffers, the stream below holds all accepted frames, and at a frame boundary nothing after it has been consumed |
| `Messages.RoundTripIff` | misc/multistream-select/src/protocol.rs:126-218 | decoding an encoded message gives it back if and only if no name has a line feed, a single name does not spell the header, and a list has at most 1000 names |
| `Messages.FixedMessagesSpell` | misc/multistream-select/src/protocol.rs:44-49 | the header, the rejection and the request for the list, as text |
| `Messages.DecodeInvertsIff` | misc/multistream-select/src/protocol.rs:160-218 | a frame that decodes is the encoding of the message it decodes to if and only if, where it is a list, no length in it exceeds 64 bits |
| `Messages.DecodeListInvertsIff` | misc/multistream-select/src/protocol.rs:189-217 | the same for the body of a list |
| `Messages.OverlongLengthDecodes` | misc/multistream-select/src/protocol.rs:201-207 | a list with a length of ten bytes that decodes although it is no encoding |
| `Messages.DecodeListStops` | misc/multistream-select/src/protocol.rs:189-217 | a list decodes to its entries up to where it stops; it is accepted exactly if it stops with a single line feed at its end after at most 1000 entries, and which error is returned otherwise |
| `Messages.DecodeListErrors` | misc/multistream-select/src/protocol.rs:189-217 | which errors a protocol list can end in |
| `Messages.ListDecodes` | misc/multistream-select/src/protocol.rs:189-217 | an encoded list decodes to itself or, with more than 1000 names, to the error for too many |
| `Messages.HeaderNameDoesNotRoundTrip` | misc/multistream-select/src/protocol.rs:167-170 | the name that spells the header decodes as the header |
| `Messages.ItemsOfSent` | misc/multistream-select/src/protocol.rs:376-395 | the bytes of a sequence of messages are read as these messages, then as what the tail holds |
| `MessageStream.EncodeStreamIsEncodeAll` | misc/multistream-select/src/protocol.rs:276-283 | the message stream is the frame stream of the encodings |
| `MessageStream.MessageIO.StartSend` | misc/multistream-select/src/protocol.rs:276-283 | queues the message, or fails because its frame is too long |
| `MessageStream.MessageIO.Send` | misc/multistream-select/src/protocol.rs:276-283 | queues a message that fits, and gives the sink up after the last one |
| `MessageStream.MessageIO.PollFlush` | misc/multistream-select/src/protocol.rs:285-287 | after success the stream below has been given, and told to flush, exactly the queued messages and the application data; any other answer is that of the stream below |
| `MessageStream.MessageIO.PollWrite` | misc/multistream-select/src/protocol.rs:350-356 | application data is taken in order, after all queued messages, and as much of it as the stream below takes |
| `MessageStream.MessageIO.PollNext` | misc/multistream-select/src/protocol.rs:300-308 | yields the next item of the remote's byte stream, whatever its portioning; it is pending exactly if the stream below was not ready, and broken exactly if that failed |
| `MessageStream.MessageIO.IntoInner` | misc/multistream-select/src/protocol.rs:261-263 | hands over a stream that was given all queued messages, and whose rest is the first byte after the messages read |
| `Negotiation.SupportedInOrder` | misc/multistream-select/src/listener_select.rs:50-62 | each name is kept if and only if it is valid, with its order and repetitions |
| `Negotiation.RunOfPrefix` | misc/multistream-select/src/dialer_select.rs:161-268 | what a dialer has said after some items is a prefix of what it says after more |
| `Negotiation.ServeOfPrefix` | misc/multistream-select/src/listener_select.rs:120-310 | the same for a listener |
| `Negotiation.WaitingDialerIsAhead` | misc/multistream-select/src/dialer_select.rs:231-262 | a waiting dialer has said exactly one message more for each answer it has heard |
| `Negotiation.WaitingListenerIsEven` | misc/multistream-select/src/listener_select.rs:163-246 | a waiting listener has answered everything it has heard |
| `Negotiation.ListenerOnlyAnswers` | misc/multistream-select/src/listener_select.rs:120-310 | whatever it reads, a listener says at most one message for each, and a header first |
| `Negotiation.ConversationIsFixpoint` | misc/multistream-select/src/listener_select.rs:120-310 | for all names, the described conversation is what the two sides make each other say, and brings both to the described outcomes, also with names that do not arrive as they were sent, and with a list that does not fit a frame or has too many names |
| `Negotiation.GarbledIsRefused` | misc/multistream-select/src/listener_select.rs:180-246 | a valid name with a line feed or the header's spelling ends the negotiation for the listener, which says nothing more |
| `Negotiation.UnansweredEnd` | misc/multistream-select/src/listener_select.rs:163-246 | a listener that ends without an agreement has left the last thing it read unanswered |
| `NegotiationRuns.DialerKeepsInv` | misc/multistream-select/src/dialer_select.rs:161-403 | every step of a dialer's control keeps it in agreement with the function of what it has read |
| `NegotiationRuns.ListenerKeepsInv` | misc/multistream-select/src/listener_select.rs:120-310 | the same for the listener |
| `NegotiationTheorems.InvKept` | misc/multistream-select/src/dialer_select.rs:161-268 | every move of the composed system keeps both sides on the conversation |
| `NegotiationTheorems.Agreement` | misc/multistream-select/src/dialer_select.rs:161-268 | in every reachable state of every interleaving, with any names, a side that has ended has the outcome the two lists determine |
| `NegotiationTheorems.NotBothStarved` | misc/multistream-select/src/dialer_select.rs:221-262 | the two sides never both wait with nothing in flight |
| `NegotiationTheorems.SomeMoveIsEnabled` | misc/multistream-select/src/listener_select.rs:123-309 | unless both have ended, some move is possible: no state waits on an unflushed buffer |
| `NegotiationTheorems.EveryMoveWorks` | misc/multistream-select/src/dialer_select.rs:164-267 | every move lowers a measure of names, messages and states |
| `NegotiationTheorems.RunsAreBounded` | misc/multistream-select/src/dialer_select.rs:164-267 | no run is longer than nine times the conversation plus two |
| `NegotiationTheorems.MaximalRunsAgree` | misc/multistream-select/src/listener_select.rs:282-303 | a run that cannot go on has brought both sides to their outcomes |
| `NegotiationTheorems.RunsCanFinish` | misc/multistream-select/src/dialer_select.rs:164-267 | every run can be brought to an end of both sides |
| `NegotiationTheorems.JoinedKept` | misc/multistream-select/src/negotiated.rs:112-180 | with any names, every move keeps each side to answers of what it was told, and an agreed dialer without unwritten messages |
| `NegotiationTheorems.AnsweredDialerIsDrained` | misc/multistream-select/src/negotiated.rs:117-180 | what ends the wait of a settled dialer answers its last message, which is therefore written |
| `NegotiationTheorems.AgreedDialerIsDrained` | misc/multistream-select/src/length_delimited.rs:96-100 | against this listener, with any names and any failing writes of an early settlement, an agreed dialer has an empty write buffer |
| `NegotiationLaws.FirstSupportedNameWinsIff` | misc/multistream-select/src/dialer_select.rs:231-262 | every finished run ends with the dialer's first name that the listener supports, or with both failing for want of one, if and only if the dialer's way of finding a name is safe for the names of the two |
| `NegotiationLaws.SerialEnds` | misc/multistream-select/src/dialer_select.rs:187-262 | serial negotiations end with the first supported name before the first one that cannot be told, or else as that one makes each side end |
| `NegotiationLaws.StrategiesAgreeIff` | misc/multistream-select/src/dialer_select.rs:65-69 | finished runs of serial and parallel dialers, with any names and of any versions, end alike on both sides if and only if both ways are safe for these names, or spoilt by the same error |
| `NegotiationLaws.SizeHintMattersIff` | misc/multistream-select/src/dialer_select.rs:53-77 | for names that can be told, finished runs with two size hints and versions end alike if and only if the hints choose the same strategy or the listener's list arrives |
| `NegotiationLaws.AsksForListIff` | misc/multistream-select/src/dialer_select.rs:53-77 | in every finished run, with any names and versions, the dialer has asked for the list if and only if its size hint is above three or there is none |
| `NegotiationLaws.ManyNamesMatter` | misc/multistream-select/src/protocol.rs:189-200 | for each number of names above 1000, finished runs in which the serial dialer agrees and the parallel one does not, and how each side ends |
| `NegotiationLaws.InvalidNameMatters` | misc/multistream-select/src/dialer_select.rs:187-198 | finished runs in which an invalid first name fails the serial dialer while the parallel one agrees on the second |
| `NegotiationLaws.GarbledNameMatters` | misc/multistream-select/src/protocol.rs:167-189 | finished runs in which a first name with a line feed breaks off the serial negotiation while the parallel one agrees on the second |
| `NegotiationLaws.SettledDialerHearsConfirmation` | misc/multistream-select/src/dialer_select.rs:380-397 | once a parallel dialer has settled, the listener can only confirm that name |
| `NegotiationLaws.TranscriptIsFixed` | misc/multistream-select/src/dialer_select.rs:187-228 | for all names, what has crossed the wire in a finished run depends neither on the interleaving nor on the version, and is nothing if the dialer fails before its first proposal |
| `NegotiationLaws.LazyLooksTheSame` | misc/multistream-select/src/lib.rs:110-139 | for all names, the lazy version is identical to the other one on the wire, in both directions |
| `NegotiationLaws.LazyEndsAlikeIff` | misc/multistream-select/src/dialer_select.rs:202-218 | finished runs of the two versions end alike if and only if the dialer does not come to a last name that arrives garbled |
| `NegotiationLaws.LazyDialerSettlesLast` | misc/multistream-select/src/dialer_select.rs:202-218 | whatever the peer does, a serial dialer settles early only if lazy, only on its last name, after each earlier one was rejected |
| `NegotiationLaws.EagerNeverSettles` | misc/multistream-select/src/dialer_select.rs:205-207 | the other version never settles early |
| `NegotiationLaws.EarlySettlementReleasedIff` | misc/multistream-select/src/negotiated.rs:112-180 | whatever the peer does, an early settlement completes with an empty write buffer if and only if one more message was written than the peer has answered |
| `NegotiationLaws.UnpromptedConfirmation` | misc/multistream-select/src/negotiated.rs:118-180 | four steps that lead a lazy dialer, from its beginning and with nothing written, to agree on an unasked confirmation with everything still buffered |
| `NegotiationLaws.FirstNoQuestionDecides` | misc/multistream-select/src/listener_select.rs:180-246 | whatever a waiting listener reads, readable or not, the first item that it does not answer and wait on decides how it ends, and how |
| `NegotiationLaws.EarlyDataIsTakenForMessages` | misc/multistream-select/src/lib.rs:110-139 | when all names of a lazy dialer are rejected, the dialer fails and the listener ends as the early data, taken for messages, makes it end |
| `NegotiationLaws.EarlyDataIsAgreedUpon` | misc/multistream-select/src/lib.rs:128-135 | the documented pitfall: early data that is the frame of a supported name: the listener agrees on it although the dialer has failed |
| `NegotiationLaws.GarbageIsGracefulIff` | misc/multistream-select/src/listener_select.rs:180-207 | unreadable data after a rejection is a graceful failure if and only if the stream ends inside the first frame or that frame is an invalid message |
| `NegotiationLaws.UngracefulGarbage` | misc/multistream-select/src/listener_select.rs:190-204 | two bytes that are unreadable and yet reported as a violation, beside two that are not |
| `NegotiationLaws.FirstProposalViolatesIff` | misc/multistream-select/src/listener_select.rs:210-246 | a first proposal is taken for a violation if and only if its name cannot be told over the wire |
| `Endpoints.DialerVerdict` | misc/multistream-select/src/dialer_select.rs:161-403 | a dialer's verdict is that on the remote's whole stream, whenever it is reached |
| `Endpoints.ListenerVerdict` | misc/multistream-select/src/listener_select.rs:120-310 | the same for the listener |
| `Endpoints.DialerSelect.Poll` | misc/multistream-select/src/dialer_select.rs:161-268 | a dialer's poll keeps it in agreement with what it has read; it is pending exactly if the stream below was not ready, once, and breaks exactly if that failed or took nothing; on agreement its buffers are empty, so that taking the stream back out is legitimate, and reading goes on right after the confirmation |
| `Endpoints.DialerSelect.TurnSend` | misc/multistream-select/src/dialer_select.rs:166-219 | a sending state queues its message and moves on, or stays as it is because the stream below was not ready, or ends because that failed |
| `Endpoints.DialerSelect.TurnFlush` | misc/multistream-select/src/dialer_select.rs:221-229 | a flushing state moves on only with an empty buffer, and after the stream below was flushed |
| `Endpoints.DialerSelect.OnItem` | misc/multistream-select/src/dialer_select.rs:231-262 | a reading state reacts to a message as the function of what is read says; `DialerObjectAgreedOnProposal` and `WaitingDialerReacts` say which messages these are |
| `Endpoints.DialerSelect.Complete` | misc/multistream-select/src/negotiated.rs:112-188 | completing an early settlement ends with the verdict on what was read; it is pending exactly if the stream below was not ready, once; it ends broken exactly if that failed, and not because nothing was taken; the assertion of an empty write buffer fails if and only if the confirmation is read after a flush has failed on writing nothing and left something buffered; otherwise the stream is handed over right after the confirmation |
| `Endpoints.DialerSelect.WriteEarly` | misc/multistream-select/src/negotiated.rs:287-297 | application data written before the confirmation goes out after the negotiation messages, in order |
| `Endpoints.DialerSelect.TurnRead` | misc/multistream-select/src/dialer_select.rs:231-262 | a reading state takes one item, the end, or stays as it is because the stream below was not ready |
| `Endpoints.DialerSelect.Agree` | misc/multistream-select/src/negotiated.rs:172-180 | on an agreement the stream is taken back out, or the assertion of an empty write buffer fails |
| `Endpoints.ListenerSelect.Poll` | misc/multistream-select/src/listener_select.rs:120-310 | a listener's poll keeps it in agreement with what it has read; it is pending exactly if the stream below was not ready, once, and breaks exactly if that failed or took nothing; on agreement its buffers are empty |
| `Endpoints.ListenerSelect.TurnSend` | misc/multistream-select/src/listener_select.rs:251-280 | an answering state queues its message and remembers whether it was a rejection |
| `Endpoints.ListenerSelect.TurnFlush` | misc/multistream-select/src/listener_select.rs:282-305 | a flushing state ends or reads on only with an empty buffer, and after the stream below was flushed |
| `Endpoints.ListenerSelect.OnItem` | misc/multistream-select/src/listener_select.rs:163-246 | a reading state reacts to a message as the function of what is read says; `ListenerObjectAgreedOnProposal` and `WaitingListenerReacts` say which messages these are |
| `NegotiationPeers.SerialSpeaksInTurn` | misc/multistream-select/src/dialer_select.rs:187-262 | whatever it is told, a serial dialer says its header and then its names, one by one in their order |
| `NegotiationPeers.ParallelSpeaksByList` | misc/multistream-select/src/dialer_select.rs:317-403 | whatever it is told, a parallel dialer says its header, asks for the list, and announces at most one name, of its own |
| `NegotiationPeers.WaitingDialerReacts` | misc/multistream-select/src/dialer_select.rs:231-262 | what a waiting dialer does on each message and error of any peer, in terms of what it has said: ends, waits on, proposes the next name, picks one from the list, or agrees, also when it has settled before |
| `NegotiationPeers.DialerAtEnd` | misc/multistream-select/src/negotiated.rs:153-158 | how a waiting dialer ends with its stream |
| `NegotiationPeers.DialerBegins` | misc/multistream-select/src/dialer_select.rs:166-219 | what a dialer says before it reads anything, or why it fails at once |
| `NegotiationPeers.DialerAgreesIff` | misc/multistream-select/src/dialer_select.rs:239-250 | a waiting dialer agrees if and only if it reads the name it has proposed last |
| `NegotiationPeers.DialerAgreedOnProposal` | misc/multistream-select/src/dialer_select.rs:161-403 | with any peer, in every state a dialer reaches: if it has agreed, it has read that name last, has proposed it last, and the name is one of its own |
| `NegotiationPeers.DialerReadsName` | misc/multistream-select/src/negotiated.rs:159-186 | a dialer that waits for an answer, settled or not, and reads a name agrees if and only if that is its last proposal |
| `NegotiationPeers.DialerObjectAgreedOnProposal` | misc/multistream-select/src/dialer_select.rs:161-403 | the same of the poll loop, for every remote and every delivery of its bytes |
| `NegotiationPeers.WaitingListenerReacts` | misc/multistream-select/src/listener_select.rs:163-246 | what a waiting listener does on each message and error of any peer: greets, answers with the list, rejects, confirms, or ends and how |
| `NegotiationPeers.ListenerAgreesIff` | misc/multistream-select/src/listener_select.rs:210-246 | a waiting listener agrees if and only if it reads a name that it supports and can confirm, after its greeting |
| `NegotiationPeers.ListenerAgreedOnProposal` | misc/multistream-select/src/listener_select.rs:251-303 | with any peer, a listener that has agreed has read that name last, has confirmed it last, and supports it |
| `NegotiationPeers.ListenerObjectAgreedOnProposal` | misc/multistream-select/src/listener_select.rs:120-310 | the same of the poll loop |
| `NegotiationPipes.OnlyConversation` | misc/multistream-select/src/listener_select.rs:120-310 | two streams, in which each side is told at least what the other one says, begin with the one conversation |
| `NegotiationPipes.StreamsAgree` | misc/multistream-select/src/dialer_select.rs:161-268 | two sides that read exactly what the other one says, and application data after it, end as the conversation does, for all names |
| `NegotiationPipes.DialerReadsAll` | misc/multistream-select/src/negotiated.rs:172-180 | an agreeing dialer has read exactly what the listener was to say |
| `NegotiationPipes.ListenerReadsAll` | misc/multistream-select/src/listener_select.rs:282-303 | an agreeing listener has read exactly what the dialer was to say |
| `NegotiationPipes.PipesAgree` | misc/multistream-select/src/dialer_select.rs:161-268 | the two byte-level objects, joined by two byte streams in any portioning and interleaving, with any names, end with the outcomes that the two lists determine, if the dialer has written all it had to say or failed before its first proposal; otherwise it ends as cut off and the listener does not agree. Early data after a rejection can change how the listener ends |
| `NegotiationPipes.BrokenOffHoldsFewer` | misc/multistream-select/src/length_delimited.rs:151-220 | a stream that breaks off holds fewer readable messages than were to be sent |
| `NegotiationPipes.EndedHasWrittenAll` | misc/multistream-select/src/negotiated.rs:112-180 | whatever failed to be written, a dialer that an answer of this listener has brought to an end has an empty write buffer |
| `NegotiationPipes.AgreedHasWrittenAll` | misc/multistream-select/src/length_delimited.rs:96-100 | so the assertion of an empty write buffer does not fail for an agreed dialer |
| `NegotiationPipes.UnwrittenIsCutOff` | misc/multistream-select/src/negotiated.rs:153-158 | a dialer that could not write all it had to say ends with the error for an unexpected end, and the listener does not agree |
| `NegotiationPipes.EarlyDataDecides` | misc/multistream-select/src/listener_select.rs:180-246 | with early data the listener ends as the conversation followed by that data makes it end |
| `NegotiationPipes.HandedOverAtApplicationData` | misc/multistream-select/src/lib.rs:110-139 | when the dialer has agreed, so has the listener, on the name the two lists determine; the dialer's write buffer is empty and no assertion has failed; the listener's stream stands at the first byte of early data, the dialer's at the first byte after the confirmation |
| `NegotiationPipes.Negotiate` | misc/multistream-select/src/dialer_select.rs:161-268 | two new objects with any names, polled in any order on any bytes and with any early data: once both have ended, on streams that at most failed to write, and each was sent what the other has written, no assertion has failed, and they have ended as the two lists determine or the dialer was cut off; after an agreement they stand at the application data |
| `AddressScores.InsertKeeps` | swarm/src/registry.rs:325-334 | inserting a record neither loses nor duplicates any |
| `AddressScores.InsertSorts` | swarm/src/registry.rs:325-334 | inserting into a descending list gives a descending list |
| `AddressScores.InsertIsStable` | swarm/src/registry.rs:325-334 | inserting keeps the order of records with equal scores |
| `AddressScores.DescendingInNumbers` | swarm/src/registry.rs:325-334 | a list is descending if and only if infinite scores come first, and the finite ones after them in descending order of their numbers |
| `AddressScores.ScoresSaturate` | swarm/src/registry.rs:126-152 | sums of scores are those of numbers as long as these fit 32 bits, and the greatest such number otherwise; differences are those of numbers or zero; infinity absorbs both |
| `AddressScores.IsortIsStableSort` | swarm/src/registry.rs:325-334 | the sort gives a stable, descending permutation |
| `AddressScores.SortInPlace` | swarm/src/registry.rs:325-334 | the loop on the array computes that sort |
| `AddressScores.SinkIntoPlace` | swarm/src/registry.rs:327-332 | the inner loop inserts one record into the part before it |
| `AddressBook.ExpiryIsComplete` | swarm/src/registry.rs:204-215 | although expiry only looks at the last record, it removes exactly the zero scores, provided they are at the end |
| `AddressBook.RescoredRecords` | swarm/src/registry.rs:198-201 | changing one score and sorting changes that record only |
| `AddressBook.ForgetKeeps` | swarm/src/registry.rs:195-202 | forgetting the oldest report leaves addresses distinct, zero scores at the end, and scores covered by the history |
| `AddressBook.RaiseKeeps` | swarm/src/registry.rs:225-236 | raising a score or appending a record keeps the invariant |
| `AddressBook.AddKeepsInv` | swarm/src/registry.rs:192-237 | every addition, with saturation and infinite scores, keeps: distinct addresses, only the last score may be zero, every finite score is at most its history sum and has a report |
| `AddressBook.RemoveKeepsInv` | swarm/src/registry.rs:243-250 | removal keeps the invariant, removes exactly that address and tells whether it was there |
| `AddressBook.RemoveLeavesOthers` | swarm/src/registry.rs:243-250 | removal leaves the other records in their order, and the history and its limit as they are |
| `AddressBook.AddExpiresExactlyZeros` | swarm/src/registry.rs:204-215 | after the expiry loop of any addition no zero score is left, the expired records are exactly those, and an update is reported exactly if the address is among the rest |
| `AddressBook.RunsKeepInv` | swarm/src/registry.rs:192-250 | the invariant holds after every sequence of additions and removals |
| `AddressBook.FiniteRecordsAreLimited` | swarm/src/registry.rs:48-60 | finitely scored addresses never outnumber the reports, nor these the limit |
| `AddressBook.AddIsExact` | swarm/src/registry.rs:192-237 | if scores are window sums before an addition that does not overflow, they are after it |
| `AddressBook.ScoresAreWindowSums` | swarm/src/registry.rs:126-152 | in every run of additions without overflow, each finite score is the sum of the reports still in the history, absent addresses have none, and the infinite addresses are exactly those ever added as infinite |
| `AddressBook.HistoryIsRecent` | swarm/src/registry.rs:195-223 | the history is the tail of all finite reports made |
| `AddressBook.HistoryIsFull` | swarm/src/registry.rs:195-223 | with finite scores the history forgets nothing before it is full, and stays full |
| `AddressBook.AddIsDescendingIff` | swarm/src/registry.rs:225-236 | the order after an addition is descending if and only if the address was already there, or the records left are in order and none scores less |
| `AddressBook.AddKeepsDescendingIff` | swarm/src/registry.rs:192-237 | an order stays descending if and only if the address is known or no remaining record scores less than the new one |
| `AddressBook.NotAlwaysDescending` | swarm/src/registry.rs:235-236 | two additions after which the order is not descending |
| `AddressCollection.Addresses.Add` | swarm/src/registry.rs:192-237 | the object's addition computes the specified collection and result, and keeps the invariant |
| `AddressCollection.Addresses.Remove` | swarm/src/registry.rs:243-250 | the object's removal computes the specified collection and result |
| `AddressCollection.Addresses.ForgetOldest` | swarm/src/registry.rs:195-202 | the first step of an addition |
| `AddressCollection.Addresses.Expire` | swarm/src/registry.rs:204-215 | the expiry loop pops exactly the trailing zero scores, in their order |
| `AddressCollection.Addresses.Rescore` | swarm/src/registry.rs:198-201 | one score changes, and the list is sorted |
| `AddressCollection.Addresses.Find` | swarm/src/registry.rs:198-198 | the first record with the address |
| `SwarmReports.EstablishedKeepsInv` | swarm/src/lib.rs:770-806 | a reported connection leaves the behaviour's picture in agreement with the pool, with the right count |
| `SwarmReports.WithheldKeepsInv` | swarm/src/lib.rs:764-769 | so does a withheld one |
| `SwarmReports.ClosedKeepsInv` | swarm/src/lib.rs:845-884 | so does a reported closing, with the endpoint the connection has then |
| `SwarmReports.WithheldCloseKeepsInv` | swarm/src/lib.rs:845-872 | so does the closing of a withheld connection |
| `SwarmReports.MovedKeepsInv` | swarm/src/connection/pool.rs:609-634 | so does a change of endpoint, reported or not |
| `SwarmReports.StepKeepsInv` | swarm/src/lib.rs:759-916 | every pool event, dial, ban and unban keeps that agreement |
| `SwarmReports.ReportedAreEstablishedLessBanned` | swarm/src/lib.rs:759-891 | in every run the connections reported open are the established ones less the withheld ones, and the withheld ones are established |
| `SwarmReports.StatusIsSettled` | swarm/src/lib.rs:587-600 | whether a connection is reported, and as whose, does not change during its life, whatever is banned meanwhile |
| `SwarmReports.GoneForGood` | swarm/src/connection/pool.rs:450-455 | an identifier that is neither pending nor established any more does not come back |
| `SwarmReports.ReportsInOrder` | swarm/src/lib.rs:845-891 | of two reports for a connection the earlier is no closing and the later no establishment |
| `SwarmReports.ClosedIsPaired` | swarm/src/lib.rs:866-884 | for each reported closing there is exactly one establishment, earlier and of the same peer and connection, and no other closing |
| `SwarmReports.OwnCount` | swarm/src/test.rs:162-173 | the behaviour's own count is the number of open connections, and exceeds the last reported number by at most one |
| `SwarmReports.OpenWhereLastMoved` | swarm/src/lib.rs:901-916 | an open connection is where it was last reported to have moved, or else where it was established |
| `SwarmReports.ClosedAtHomeIff` | swarm/src/test.rs:319-325 | a right closing meets the oracle's comparison of peer, identifier and endpoint if and only if the connection has not moved or has moved back |
| `SwarmReports.RightPassesOracleIff` | swarm/src/test.rs:241-356 | a callback that is right in view of the earlier ones passes the oracle's assertions if and only if it is no closing away from home, which still passes those on counts, peer and identifier |
| `SwarmReports.CountPassesIff` | swarm/src/test.rs:249-264 | the oracle's comparison of a number with the recorded ones: as many must have been recorded, the last of them at most one less |
| `SwarmReports.OracleFiresIff` | swarm/src/test.rs:249-352 | in every run an assertion of the oracle fails exactly where a connection is closed at another endpoint than it was established at, and then only the comparison of endpoints; each count equals its own |
| `SwarmReports.MovingFires` | swarm/src/test.rs:319-325 | a run of four steps in which it fails |
| `SwarmBans.BannedPeersAre` | swarm/src/lib.rs:587-600 | in every run a peer is banned if and only if its last ban has not been lifted |
| `SwarmBans.WithheldIff` | swarm/src/lib.rs:759-769 | in every run a new connection is withheld if and only if its peer is banned at the time |
| `SwarmBans.HeardOfIff` | swarm/src/lib.rs:759-916 | in every run the behaviour hears of a connection, then or ever after, if and only if its peer was not banned when it was established, whatever is banned or unbanned afterwards |
| `SwarmBans.PassedOnIff` | swarm/src/lib.rs:845-916 | every later event of a connection is passed on, as what it is and under its peer, if and only if its peer was not banned when it was established |
| `SwarmBans.FirstReportIff` | swarm/src/lib.rs:759-807 | in every run a new connection is reported, once and as that connection, if and only if its peer is not banned; dialling, banning, unbanning and failed dials report nothing |
| `SwarmBans.PendingAre` | swarm/src/connection/pool.rs:450-455 | in every run connections are numbered as they are begun, and pending until they fail or are established |
| `SwarmBans.EstablishedAre` | swarm/src/lib.rs:759-891 | in every run the pool has exactly the connections established and not closed since |
| `SwarmHistory.HistoryIsRun` | swarm/src/lib.rs:655-1061 | every run of the poll loop, with dials, bans and unbans, is for the network a run of the events it has handled |
| `SwarmHistory.SwarmHearsOfIff` | swarm/src/lib.rs:655-916 | in every run of the poll loop the behaviour hears of a connection if and only if its peer was not banned when it was established |
| `SwarmHistory.SwarmFollowsHistory` | swarm/src/lib.rs:587-891 | in every run of the poll loop banned peers and connections are those its history calls for |
| `CallTrace.CallTraceBehaviour.InjectConnectionEstablished` | swarm/src/test.rs:241-284 | the assertions hold, and the call is recorded |
| `CallTrace.CallTraceBehaviour.InjectConnectionClosed` | swarm/src/test.rs:286-332 | the assertions on counts hold, the last one holds if and only if the connection is where it was established, and the call is recorded |
| `CallTrace.CallTraceBehaviour.InjectEvent` | swarm/src/test.rs:334-356 | the assertions hold, and the call is recorded |
| `CallTrace.CallTraceBehaviour.TakeRecorded` | swarm/src/test.rs:249-260 | the latest numbers recorded for a peer, last first |
| `CallTrace.CallTraceBehaviour.NumConnectionsToPeer` | swarm/src/test.rs:162-173 | the number of the peer's open connections, never negative |
| `CallTrace.RecordsSuffice` | swarm/src/test.rs:106-114 | the separate records answer every question about the whole sequence of calls |
| `SwarmDelivery.KeptIffMayArrive` | swarm/src/lib.rs:1087-1155 | an event is kept if and only if no candidate accepts it and some candidate may still become ready, and then for exactly these |
| `SwarmDelivery.DeliveryTries` | swarm/src/lib.rs:1087-1155 | a delivery asks the candidates: if some established one accepts, one of these has accepted; otherwise all were asked and answered as they are, and the event waits for exactly the busy ones |
| `SwarmDelivery.AskingKeepsInv` | swarm/src/lib.rs:1131-1154 | a round of attempts keeps order, targets and the account of every event |
| `SwarmDelivery.DeliverKeepsInv` | swarm/src/lib.rs:919-952 | so does every attempt at the pending event |
| `SwarmDelivery.EmitKeepsInv` | swarm/src/lib.rs:982-1017 | so does the emission of an event once the slot is empty |
| `SwarmTurns.RoundKeepsInv` | swarm/src/lib.rs:655-1061 | a round of the poll loop keeps reports and delivery in order |
| `SwarmTurns.NoEmissionWhilePending` | swarm/src/lib.rs:919-969 | a round emits at most one event, only after the pending one was accepted or given up, for the connections the peer has at that time |
| `SwarmTurns.PendingIsTried` | swarm/src/lib.rs:919-952 | unless the round has ended before, it tries the pending event: it is accepted if some candidate accepts, and otherwise every candidate was asked and the event waits for exactly the busy ones |
| `SwarmTurns.EmitsIff` | swarm/src/lib.rs:956-1017 | a round emits an event if and only if it has not ended before, nothing blocks the behaviour, and the behaviour wants to; it is tried in the same round |
| `SwarmTurns.RoundFlow` | swarm/src/lib.rs:655-1061 | exactly when a round returns an event, when it returns pending, and when another one follows |
| `SwarmTurns.RoundStepsLead` | swarm/src/lib.rs:655-1061 | a round handles the pool's event and makes the connections asked for, once each and in this order |
| `SwarmTurns.EveryRunReports` | swarm/src/lib.rs:759-916 | in every run of the poll loop with dials, bans and unbans, reports agree with the pool, pass the oracle except for the endpoint of closings away from home, and are paired |
| `SwarmTurns.EveryRunDelivers` | swarm/src/lib.rs:919-1017 | in every such run each event is accepted once in order, or pending, or has failed at every captured connection |
| `SwarmLoop.NotifyAny` | swarm/src/lib.rs:1113-1155 | the loop stops at the first connection that accepts, and otherwise returns those that are busy |
| `SwarmLoop.CountShownIsSize` | swarm/src/lib.rs:776-779 | counting the ids that are not withheld gives the number of reported connections |
| `SwarmLoop.ReportIsRight` | swarm/src/lib.rs:759-916 | whatever a pool event makes the swarm report is right in view of the earlier reports, and keeps the agreement with the pool |
| `SwarmLoop.Swarm.BanPeerId` | swarm/src/lib.rs:587-595 | banning changes nothing but the set of banned peers |
| `SwarmLoop.Swarm.UnbanPeerId` | swarm/src/lib.rs:598-600 | unbanning likewise |
| `SwarmLoop.Swarm.CountReported` | swarm/src/lib.rs:776-779 | the number passed to the behaviour |
| `SwarmLoop.Swarm.OnEstablished` | swarm/src/lib.rs:759-807 | reports or withholds the new connection as specified, through the asserting behaviour; `HeardOfIff` says which connections these are |
| `SwarmLoop.Swarm.OnClosed` | swarm/src/lib.rs:845-891 | reports the closing if the connection was reported |
| `SwarmLoop.Swarm.OnConnectionEvent` | swarm/src/lib.rs:892-900 | passes on events of reported connections only |
| `SwarmLoop.Swarm.OnAddressChange` | swarm/src/lib.rs:901-916 | passes on address changes of reported connections only |
| `SwarmLoop.Swarm.NotifyOne` | swarm/src/lib.rs:1087-1101 | keeps the event exactly if the connection is busy |
| `SwarmLoop.Swarm.DeliverPending` | swarm/src/lib.rs:924-952 | takes the event out of the slot and puts it back only for busy candidates |
| `SwarmLoop.Swarm.Emit` | swarm/src/lib.rs:982-1017 | a first attempt at a new event |
| `SwarmLoop.Swarm.PollBehaviour` | swarm/src/lib.rs:956-1059 | polled only with an empty slot |
| `SwarmLoop.Swarm.Turn` | swarm/src/lib.rs:655-1061 | one round of the loop, with the assertion that nothing is pending when the behaviour is polled; `PendingIsTried`, `EmitsIff` and `RoundFlow` say what a round does |
| `SwarmLoop.Swarm.PollNextEvent` | swarm/src/lib.rs:646-1062 | the loop performs rounds until one returns; `PollIsRounds` says which |
| `SwarmLoop.PollIsRounds` | swarm/src/lib.rs:646-1062 | a poll performs rounds one after the other as long as they go on, ends with the first one that does not, and returns what that one does |
| `SwarmLoop.EndsOnceIdle` | swarm/src/lib.rs:924-970 | the loop does not get past the first round in which listeners and pool are quiet and the behaviour wants nothing |
| `MemoryHub.ActionKeepsInv` | core/src/transport/memory.rs:53-91 | every listen, dial, poll and drop keeps the hub and the live values referring to each other |
| `MemoryHub.PortsHaveOneHolder` | core/src/transport/memory.rs:98-163 | in every run the occupied ports are exactly those of live listeners, unfinished dials and dialers' channels, each of exactly one |
| `MemoryHub.UnregisterFindsPort` | core/src/transport/memory.rs:277-282 | whatever is dropped finds its port registered, and a live listener finds its own sender in the hub |
| `MemoryHub.ListenersTakeInOrder` | core/src/transport/memory.rs:255-274 | a live listener has taken a prefix of the connections sent to it; the rest is in its queue |
| `MemoryHub.EphemeralPortsAreUnreachable` | core/src/transport/memory.rs:111-163 | a dial to another dialer's port never completes |
| `MemoryHub.FirstFree` | core/src/transport/memory.rs:63-73 | the random port is the first draw that is not zero and unoccupied |
| `MemoryDials.ListensIff` | core/src/transport/memory.rs:172-192 | a listener comes to be at the port named, or for zero at a random one, if and only if that is free |
| `MemoryDials.DialsIff` | core/src/transport/memory.rs:194-206 | a dial comes to be for the channel registered at the port named, if and only if there is one |
| `MemoryDials.OthersAreRefused` | core/src/transport/memory.rs:287-309 | an address that names no port is neither listened on nor dialled |
| `MemoryDials.DialReaches` | core/src/transport/memory.rs:111-162 | in every run: a dial made for a port that a listener held hands the connection to that listener and to nobody else, when it is polled while both live and the listener has room |
| `MemoryDials.SentWasDialed` | core/src/transport/memory.rs:111-162 | in every run every connection ever sent to a listener is that of a dial for the port the listener was registered at |
| `MemoryDials.DialDoneIff` | core/src/transport/memory.rs:141-162 | in every run a dial has become a channel only by a poll in which its listener took the connection, and an unfinished one still has its connection to send if and only if no listener went away while taking it |
| `MemoryDials.ListenersAreWhereAsked` | core/src/transport/memory.rs:172-192 | in every run a listener is at the port it asked for, or at a random one if it asked for any |
| `MemoryDials.LivesUntilDropped` | core/src/transport/memory.rs:361-368 | in every run a value lives from when it was made until it is dropped |
| `MemoryDials.ToldIffPolled` | core/src/transport/memory.rs:255-274 | in every run a listener tells its address when it is first polled, and not again |
| `MemoryDials.PolledTakesNext` | core/src/transport/memory.rs:255-274 | after that a listener that is polled takes the next connection sent to it, if there is one, and nobody else's |
| `MemoryHub.Hub.RegisterPort` | core/src/transport/memory.rs:58-82 | registers the port asked for, or for zero the first usable draw, and refuses an occupied one |
| `MemoryHub.Hub.UnregisterPort` | core/src/transport/memory.rs:84-86 | removes that port only and returns its sender, if any |
| `MemoryHub.Transport.ListenOn` | core/src/transport/memory.rs:172-192 | a listener comes to be if and only if the address is supported and its port, or the one drawn for zero, is free; which error is returned otherwise |
| `MemoryHub.Transport.DialTo` | core/src/transport/memory.rs:194-206 | a dial comes to be if and only if the port asked for is registered, for the channel registered there; its own port is a new one; which error is returned otherwise |
| `MemoryHub.Transport.PollDial` | core/src/transport/memory.rs:141-162 | a dial completes exactly if its receiver lives and takes the connection, waits exactly if that is full, and fails exactly if it is gone; the port then belongs to the returned channel |
| `MemoryHub.Transport.PollListener` | core/src/transport/memory.rs:255-274 | tells the address first, then yields the oldest waiting connection, or is pending exactly if there is none; the panic for an ended channel cannot happen |
| `MemoryHub.Transport.Drop` | core/src/transport/memory.rs:361-368 | the assertion that the port was registered holds for every value |
| `Derive.ArmsPartitionEvents` | swarm-derive/src/lib.rs:417-432 | every event of the nested type is matched by exactly one arm, that of its child, and bound to that child's event |
| `Derive.CombinedHasType` | swarm-derive/src/lib.rs:435-480 | the generated handler expression has the generated type, also with a provided handler |
| `Derive.WrappedReachesOwnChild` | swarm-derive/src/lib.rs:514-521 | an event wrapped for a child has the combined type and reaches that child's handler unwrapped |
| `Derive.ReportIsWrap` | swarm/src/handler/select.rs:325-370 | what a child's handler reports leaves the combined handler in that child's shape |
| `Derive.EventsReachOwnChild` | swarm-derive/src/lib.rs:417-432 | for any fields, an event reported by a child's handler is dispatched to that child as it was |
| `Derive.PeelingReturnsOwnIff` | swarm-derive/src/lib.rs:193-221 | reverse peeling returns each child its own handler, a provided one included, if and only if the first field is not ignored or no field takes part |
| `Derive.IgnoredFirstFieldDoesNotPeel` | swarm-derive/src/lib.rs:203-210 | a structure with an ignored first field for which the generated code has no type |
| `Derive.KeptFields` | swarm-derive/src/lib.rs:705-718 | the fields that take part, once each and in order |
| `Derive.ThreeChildren` | swarm-derive/src/lib.rs:417-480 | what is generated for three children, written out |
| `DeriveGenerators.GenerateShape` | swarm-derive/src/lib.rs:418-426 | the loop nests as many `First` as there are later children |
| `DeriveGenerators.GenerateArms` | swarm-derive/src/lib.rs:417-432 | one arm for each child that takes part |
| `DeriveGenerators.GenerateHandlerExpr` | swarm-derive/src/lib.rs:454-480 | the nested selection of all children's handlers, with the provided one in its place |
| `DeriveGenerators.GenerateHandlerType` | swarm-derive/src/lib.rs:435-450 | the nested handler type |
| `DeriveGenerators.GeneratePeels` | swarm-derive/src/lib.rs:193-221 | the peeling statements, last child first |
| `SignedEnvelope.BuildSignaturePayload` | core/src/signed_envelope.rs:111-140 | the buffer is the three byte strings, each after its length |
| `SignedEnvelope.BlockPrefixFree` | core/src/signed_envelope.rs:131-137 | a length-prefixed string is determined by any bytes that begin with it |
| `SignedEnvelope.SignaturePayloadInjective` | core/src/signed_envelope.rs:111-140 | different domains, types or payloads, of any lengths, are signed differently |
| `SignedEnvelope.SignaturePayloadReads` | core/src/signed_envelope.rs:111-140 | the signed bytes, read length by length, are domain, type and payload in this order, and nothing else |
| `SignedEnvelope.SealedSigns` | core/src/signed_envelope.rs:21-37 | the signature of a sealed envelope is that of bytes that read as its domain, type and payload |
| `SignedEnvelope.New` | core/src/signed_envelope.rs:21-37 | an envelope carries the signature of its payload, or the signing error |
| `SignedEnvelope.PayloadOnlyAsSealed` | core/src/signed_envelope.rs:55-72 | if signatures are correct and binding, an envelope whose signature was issued by its key yields a payload only if the holder of the key sealed it for that domain and type |
| `SignedEnvelope.YieldsExactlyAsSealed` | core/src/signed_envelope.rs:41-72 | whatever surrounds the signature of a sealed envelope, a payload is yielded if and only if it is that envelope, asked for the domain and type it was sealed with, and which error it is otherwise; the key may have sealed the same payload for other purposes |

## Left out

- The crate `unsigned-varint` is not part of the repository; its little-endian base-128 format, the refusal of superfluous zero digits, the limits of 3 and 10 bytes and the loss of bits beyond the width are written out in `Varint`.
- Closing (`poll_close`) and vectored writes.
- Wakers, pinning and threads: being pending is taking no step, and a poll may be pending at any time.
- Errors of the stream below: the byte and endpoint layers have them, as the outcome `BROKEN`, and the pipes leave them out, other than a failing write of an early settlement. The transition system assumes that reads and writes succeed, except that a settled dialer may read with unwritten messages.
- NegotiationLaws.SizeHintMattersIff: is about dialers' names that can be told; with others `StrategiesAgreeIff` and `LazyEndsAlikeIff` say when strategies and versions end alike.
- `Pool` tasks, limits and timeouts: a pool event comes at any time for any connection in the right state. `Pool::disconnect` changes nothing but which events come, and so has no effect here.
- `listened_addrs` and the behaviour's mirror of external addresses: no such invariant holds of the code.
- SwarmLoop.Swarm.PollNextEvent: what listeners, pool and behaviour do is a given script of rounds, and the loop also stops at its end; `EndsOnceIdle` says when the real loop stops by itself.
- MemoryHub.Transport.PollDial: listeners, dial futures and channels are values in a table, not objects of their own; the capacity of a listener's channel is left to the environment, which may report it full at any time.
- MemoryHub.Hub.RegisterPort: random draws are given, and for port zero some draw is assumed to be usable, without which the source's loop would not end.
- Data sent over an in-memory channel, and its end.
- Derive.EventsReachOwnChild: covers structures with named fields; tuple structures number their fields differently.
- The derive macro's attributes other than `ignore`, generics, and statement lists that call every child in turn.
- SignedEnvelope.PayloadOnlyAsSealed: the signature scheme is a parameter whose signatures stand for one message only; the domain is its UTF-8 bytes.
- Protobuf encoding of envelopes and peer records, key types, and peer identities.
- Transport combinators, upgrades, timeouts, bandwidth counters and metrics are not modelled.
