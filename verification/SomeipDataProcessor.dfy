/** Reassembly of SOME/IP messages from a byte stream. */
module SomeipDataProcessor {
  import opened Bytes
  import opened SomeIpHeader

  datatype Message = Message(header: Header, payload: seq<byte>) {
    function ToBytes(): seq<byte> {
      var front := header.ToBuffer();
      if front.Ok? then front.value + payload else payload
    }
  }

  datatype Phase = HEADER | PAYLOAD

  datatype State = State(phase: Phase, buffer: seq<byte>, expectedBytes: int, totalLength: int)

  /** What one call of process_data ends in: False, True with a message, or an exception. */
  datatype Outcome = Pending | Delivered(message: Message) | Raised(error: Error)

  const INITIAL := State(HEADER, [], 8, 0)

  class Processor {
    var phase: Phase
    var buffer: seq<byte>
    var expectedBytes: int
    var totalLength: int
    var message: Option<Message>

    constructor ()
      ensures View() == INITIAL && message == None
    {
      phase, buffer, expectedBytes, totalLength := HEADER, [], 8, 0;
      message := None;
    }

    function View(): State
      reads this
    {
      State(phase, buffer, expectedBytes, totalLength)
    }

    ghost predicate Valid()
      reads this
    {
      Consistent(View())
    }

    /** Appends the new bytes and delivers at most one message. */
    method ProcessData(newData: seq<byte>) returns (outcome: Outcome)
      requires Valid()
      modifies this
      ensures Valid()
      ensures outcome == OutcomeOn(old(buffer) + newData)
      ensures View() == Next(old(View()), newData)
      ensures message == if outcome.Delivered? then Some(outcome.message) else old(message)
    {
      SamePrefix(buffer, newData);
      buffer := buffer + newData;
      var currentLength := |buffer|;
      if phase == HEADER {
        if currentLength < expectedBytes {
          return Pending;
        }
        totalLength := At32(buffer, 4) + 8;
        expectedBytes := totalLength - currentLength;
        phase := PAYLOAD;
      }
      if currentLength < totalLength {
        expectedBytes := totalLength - currentLength;
        return Pending;
      }
      var header := FromBuffer(buffer);
      if header.Err? {
        return Raised(header.error);
      }
      var payload := if totalLength >= 16 then buffer[16..totalLength] else [];
      message := Some(Message(header.value, payload));
      phase := HEADER;
      buffer := buffer[totalLength..];
      expectedBytes := 8;
      totalLength := 0;
      return Delivered(message.value);
    }
  }

  lemma SamePrefix(buffer: seq<byte>, newData: seq<byte>)
    ensures |buffer| >= 8 ==> At32(buffer + newData, 4) == At32(buffer, 4)
  {
  }

  // ----- A stateless description -----

  /** The size the stream announces for its first message, once eight bytes are there. */
  function FirstSize(stream: seq<byte>): int
    requires |stream| >= 8
  {
    At32(stream, 4) + 8
  }

  /** A whole well-formed message stands at the front. */
  predicate HasFrame(stream: seq<byte>) {
    |stream| >= 8 && 16 <= FirstSize(stream) <= |stream|
  }

  /** The announced length is too small for a header, and all of it has arrived. */
  predicate Malformed(stream: seq<byte>) {
    |stream| >= 8 && FirstSize(stream) < 16 && FirstSize(stream) <= |stream|
  }

  function FrameMessage(stream: seq<byte>): Message
    requires HasFrame(stream)
  {
    Message(FieldsAt(stream), stream[16..FirstSize(stream)])
  }

  /** The outcome depends on the buffered bytes only. */
  function OutcomeOn(stream: seq<byte>): Outcome {
    if HasFrame(stream) then Delivered(FrameMessage(stream))
    else if Malformed(stream) then Raised(ValueError)
    else Pending
  }

  /** What remains in the buffer. */
  function Rest(stream: seq<byte>): seq<byte> {
    if HasFrame(stream) then stream[FirstSize(stream)..] else stream
  }

  /** The other fields of the processor are determined by its buffer and phase. */
  predicate Consistent(state: State) {
    match state.phase
    case HEADER => state.expectedBytes == 8 && state.totalLength == 0
    case PAYLOAD =>
      && |state.buffer| >= 8
      && state.totalLength == FirstSize(state.buffer)
      && !HasFrame(state.buffer)
      && (|state.buffer| < state.totalLength ==> state.expectedBytes == state.totalLength - |state.buffer|)
  }

  /** The state after a call; a call that raised leaves expected_bytes as it last was. */
  function Next(state: State, newData: seq<byte>): State
  {
    var stream := state.buffer + newData;
    if HasFrame(stream) then State(HEADER, Rest(stream), 8, 0)
    else if state.phase.HEADER? && |stream| < 8 then State(HEADER, stream, 8, 0)
    else if |stream| < 8 then state.(buffer := stream)
    else if |stream| < FirstSize(stream) || state.phase.HEADER? then
      State(PAYLOAD, stream, FirstSize(stream) - |stream|, FirstSize(stream))
    else state.(buffer := stream)
  }

  // ----- Runs -----

  /** The messages delivered by a sequence of calls, and the state after it. A call that
      raises delivers nothing, and the caller goes on. */
  function Run(state: State, chunks: seq<seq<byte>>): (seq<Message>, State) {
    if chunks == [] then ([], state)
    else
      var (messages, last) := Run(state, chunks[..|chunks| - 1]);
      var stream := last.buffer + chunks[|chunks| - 1];
      (Extended(messages, stream), Next(last, chunks[|chunks| - 1]))
  }

  function Extended(messages: seq<Message>, stream: seq<byte>): seq<Message> {
    if HasFrame(stream) then messages + [FrameMessage(stream)] else messages
  }

  function Joined(chunks: seq<seq<byte>>): seq<byte> {
    if chunks == [] then [] else Joined(chunks[..|chunks| - 1]) + chunks[|chunks| - 1]
  }

  function BytesOf(messages: seq<Message>): seq<byte> {
    if messages == [] then [] else BytesOf(messages[..|messages| - 1]) + messages[|messages| - 1].ToBytes()
  }

  lemma NextConsistent(state: State, newData: seq<byte>)
    requires Consistent(state)
    ensures Consistent(Next(state, newData))
    ensures Next(state, newData).buffer == Rest(state.buffer + newData)
  {
    SamePrefix(state.buffer, newData);
  }

  lemma {:induction false} RunConsistent(chunks: seq<seq<byte>>)
    ensures Consistent(Run(INITIAL, chunks).1)
  {
    if chunks != [] {
      RunConsistent(chunks[..|chunks| - 1]);
      NextConsistent(Run(INITIAL, chunks[..|chunks| - 1]).1, chunks[|chunks| - 1]);
    }
  }

  /** A delivered message is made of exactly the bytes of its frame. */
  lemma FrameBytes(stream: seq<byte>)
    requires HasFrame(stream)
    ensures FrameMessage(stream).ToBytes() == stream[..FirstSize(stream)]
  {
    HeaderInverse(FieldsAt(stream), stream);
    assert stream[..16] + stream[16..FirstSize(stream)] == stream[..FirstSize(stream)];
  }

  /** Conservation: under any chunking of any stream, the bytes of the delivered messages in
      order, followed by the buffer, are the bytes fed in. */
  lemma {:induction false} StreamConservation(chunks: seq<seq<byte>>)
    ensures BytesOf(Run(INITIAL, chunks).0) + Run(INITIAL, chunks).1.buffer == Joined(chunks)
  {
    if chunks != [] {
      hide *;
      var before, newData := chunks[..|chunks| - 1], chunks[|chunks| - 1];
      var messages, last := Run(INITIAL, before).0, Run(INITIAL, before).1;
      LastCall(chunks);
      StreamConservation(before);
      RunConsistent(before);
      CallConserves(messages, last, newData);
      Associative(BytesOf(messages), last.buffer, newData);
    }
  }

  lemma LastCall(chunks: seq<seq<byte>>)
    requires chunks != []
    ensures var before, newData := chunks[..|chunks| - 1], chunks[|chunks| - 1];
            var messages, last := Run(INITIAL, before).0, Run(INITIAL, before).1;
            && Run(INITIAL, chunks).0 == Extended(messages, last.buffer + newData)
            && Run(INITIAL, chunks).1 == Next(last, newData)
            && Joined(chunks) == Joined(before) + newData
  {
    hide HasFrame, FrameMessage, Next;
  }

  /** One call moves the bytes of a whole frame, if there is one, from the buffer to the messages. */
  lemma CallConserves(messages: seq<Message>, state: State, newData: seq<byte>)
    requires Consistent(state)
    ensures BytesOf(Extended(messages, state.buffer + newData)) + Next(state, newData).buffer
            == BytesOf(messages) + (state.buffer + newData)
  {
    NextConsistent(state, newData);
    hide *;
    FrameMoves(messages, state.buffer + newData);
  }

  lemma FrameMoves(messages: seq<Message>, stream: seq<byte>)
    ensures BytesOf(Extended(messages, stream)) + Rest(stream) == BytesOf(messages) + stream
  {
    hide BytesOf, FrameMessage;
    if HasFrame(stream) {
      FrameBytes(stream);
      BytesOfLast(messages, FrameMessage(stream));
      Associative(BytesOf(messages), stream[..FirstSize(stream)], stream[FirstSize(stream)..]);
      assert stream == stream[..FirstSize(stream)] + stream[FirstSize(stream)..];
    }
  }

  lemma BytesOfLast(messages: seq<Message>, last: Message)
    ensures BytesOf(messages + [last]) == BytesOf(messages) + last.ToBytes()
  {
    var all := messages + [last];
    assert all[..|all| - 1] == messages;
  }

  // ----- The reference parse -----

  /** All whole messages at the front of a stream, up to the first malformed one. */
  function Parse(stream: seq<byte>): seq<Message>
    decreases |stream|
  {
    if HasFrame(stream) then [FrameMessage(stream)] + Parse(Rest(stream)) else []
  }

  /** A frame at the front does not change when more bytes follow. */
  lemma FrameStays(stream: seq<byte>, more: seq<byte>)
    requires HasFrame(stream)
    ensures HasFrame(stream + more)
    ensures FrameMessage(stream + more) == FrameMessage(stream)
    ensures Rest(stream + more) == Rest(stream) + more
  {
    SamePrefix(stream, more);
    var all, size := stream + more, FirstSize(stream);
    assert all[16..size] == stream[16..size];
    assert all[size..] == stream[size..] + more;
  }

  /** One call: what the buffered bytes parse to is the delivered message and what the new buffer
      parses to, whatever follows. */
  lemma CallParses(state: State, newData: seq<byte>, more: seq<byte>)
    requires Consistent(state)
    ensures var stream := state.buffer + newData;
            Parse(state.buffer + (newData + more))
            == (if HasFrame(stream) then [FrameMessage(stream)] else []) + Parse(Next(state, newData).buffer + more)
  {
    hide Consistent, Next, FrameMessage;
    NextConsistent(state, newData);
    var stream := state.buffer + newData;
    assert state.buffer + (newData + more) == stream + more;
    if HasFrame(stream) {
      FrameStays(stream, more);
    }
  }

  /** The messages still to come are those of the buffer: delivered and undelivered together
      are the reference parse, whatever follows. */
  lemma {:induction false} DeliveredThenBuffer(chunks: seq<seq<byte>>, more: seq<byte>)
    ensures Parse(Joined(chunks) + more) == Run(INITIAL, chunks).0 + Parse(Run(INITIAL, chunks).1.buffer + more)
    decreases |chunks|
  {
    hide Consistent, Next, FrameMessage, HasFrame, Parse;
    if chunks == [] {
      assert [] + more == more;
    } else {
      var before := chunks[..|chunks| - 1];
      var newData := chunks[|chunks| - 1];
      var (messages, last) := Run(INITIAL, before);
      DeliveredThenBuffer(before, newData + more);
      RunConsistent(before);
      CallParses(last, newData, more);
      assert Joined(chunks) + more == Joined(before) + (newData + more);
    }
  }

  /** The delivered messages are a prefix of the reference parse, and after a call that returned
      False they are all of it. */
  lemma DeliveredPrefix(chunks: seq<seq<byte>>)
    ensures Run(INITIAL, chunks).0 <= Parse(Joined(chunks))
    ensures !HasFrame(Run(INITIAL, chunks).1.buffer) ==> Run(INITIAL, chunks).0 == Parse(Joined(chunks))
    ensures chunks != [] ==>
              var stream := Run(INITIAL, chunks[..|chunks| - 1]).1.buffer + chunks[|chunks| - 1];
              OutcomeOn(stream).Pending? ==> Run(INITIAL, chunks).0 == Parse(Joined(chunks))
  {
    DeliveredThenBuffer(chunks, []);
    var buffer := Run(INITIAL, chunks).1.buffer;
    assert Joined(chunks) + [] == Joined(chunks) && buffer + [] == buffer;
    if chunks != [] {
      var last := Run(INITIAL, chunks[..|chunks| - 1]).1;
      RunConsistent(chunks[..|chunks| - 1]);
      NextConsistent(last, chunks[|chunks| - 1]);
    }
  }

  // ----- The pull reader -----

  /** Every read returns at most as many bytes as the processor expected. */
  predicate Pulled(chunks: seq<seq<byte>>) {
    chunks != [] ==>
      && Pulled(chunks[..|chunks| - 1])
      && |chunks[|chunks| - 1]| <= Run(INITIAL, chunks[..|chunks| - 1]).1.expectedBytes
  }

  /** The buffer ends before the current message does; it is short of the size field, or
      expected_bytes is exactly what the message still lacks. */
  predicate WithinMessage(state: State) {
    match state.phase
    case HEADER => |state.buffer| <= 7 && state.expectedBytes == 8
    case PAYLOAD =>
      && 8 <= |state.buffer| < FirstSize(state.buffer)
      && state.expectedBytes == FirstSize(state.buffer) - |state.buffer|
  }

  /** One pulled read. Before the size is known at most 15 bytes are buffered, fewer than any
      message has; afterwards a read can complete the message but not pass its end. */
  lemma PulledStep(state: State, newData: seq<byte>)
    requires Consistent(state) && WithinMessage(state) && |newData| <= state.expectedBytes
    requires |state.buffer + newData| >= 8 ==> FirstSize(state.buffer + newData) >= 16
    ensures var stream := state.buffer + newData;
            && (state.phase.HEADER? ==> |stream| <= 15)
            && (|stream| >= 8 ==> |stream| <= FirstSize(stream))
            && (HasFrame(stream) <==> |stream| >= 8 && |stream| == FirstSize(stream))
            && (HasFrame(stream) ==> Next(state, newData).buffer == [])
            && WithinMessage(Next(state, newData))
  {
    SamePrefix(state.buffer, newData);
  }

  /** A stream whose announced sizes, as far as they have arrived, all cover a header. */
  predicate WellFormed(stream: seq<byte>)
    decreases |stream|
  {
    |stream| >= 8 ==> FirstSize(stream) >= 16 && (HasFrame(stream) ==> WellFormed(Rest(stream)))
  }

  lemma {:induction false} WellFormedPrefix(stream: seq<byte>, more: seq<byte>)
    requires WellFormed(stream + more)
    ensures WellFormed(stream)
    decreases |stream|
  {
    SamePrefix(stream, more);
    if HasFrame(stream) {
      FrameStays(stream, more);
      WellFormedPrefix(Rest(stream), more);
    }
  }

  /** The buffer of a well-formed run is well-formed too. */
  lemma {:induction false} BufferWellFormed(chunks: seq<seq<byte>>, more: seq<byte>)
    requires WellFormed(Joined(chunks) + more)
    ensures WellFormed(Run(INITIAL, chunks).1.buffer + more)
    decreases |chunks|
  {
    hide Consistent, Next, HasFrame, WellFormed;
    if chunks == [] {
      assert [] + more == more;
    } else {
      var before, newData := chunks[..|chunks| - 1], chunks[|chunks| - 1];
      var last := Run(INITIAL, before).1;
      assert Joined(chunks) + more == Joined(before) + (newData + more);
      BufferWellFormed(before, newData + more);
      RunConsistent(before);
      CallKeepsWellFormed(last, newData, more);
    }
  }

  lemma CallKeepsWellFormed(state: State, newData: seq<byte>, more: seq<byte>)
    requires Consistent(state)
    requires WellFormed(state.buffer + (newData + more))
    ensures WellFormed(Next(state, newData).buffer + more)
  {
    NextConsistent(state, newData);
    hide *;
    Associative(state.buffer, newData, more);
    RestWellFormed(state.buffer + newData, more);
  }

  lemma RestWellFormed(stream: seq<byte>, more: seq<byte>)
    requires WellFormed(stream + more)
    ensures WellFormed(Rest(stream) + more)
  {
    hide FrameMessage, HasFrame;
    if HasFrame(stream) {
      FrameStays(stream, more);
      FrameHasSize(stream + more);
    }
  }

  lemma FrameHasSize(stream: seq<byte>)
    requires HasFrame(stream)
    ensures |stream| >= 8
  {
  }

  /** The pull reader: as long as reads ask for expected_bytes, the buffer stays within the current
      message, and every whole message is delivered by the read that completes it. */
  lemma {:induction false} PullReader(chunks: seq<seq<byte>>)
    requires Pulled(chunks) && WellFormed(Joined(chunks))
    ensures WithinMessage(Run(INITIAL, chunks).1)
    ensures Run(INITIAL, chunks).0 == Parse(Joined(chunks))
  {
    if chunks != [] {
      var before, newData := chunks[..|chunks| - 1], chunks[|chunks| - 1];
      WellFormedPrefix(Joined(before), newData);
      PullReader(before);
      RunConsistent(before);
      BufferWellFormed(before, newData);
      PulledStep(Run(INITIAL, before).1, newData);
    }
    DeliveredPrefix(chunks);
  }

  // ----- Messages that were sent -----

  /** The header fits the wire, and its length is that of the payload and of its own second half. */
  predicate Proper(message: Message) {
    message.header.Fits() && message.header.length == |message.payload| + 8
  }

  predicate AllProper(messages: seq<Message>) {
    forall m :: m in messages ==> Proper(m)
  }

  lemma MessageIsFrame(message: Message, rest: seq<byte>)
    requires Proper(message)
    ensures var stream := message.ToBytes() + rest;
            HasFrame(stream) && FrameMessage(stream) == message && Rest(stream) == rest
  {
    var stream, front := message.ToBytes() + rest, message.header.ToBuffer().value;
    assert stream[..16] == front;
    HeaderInverse(message.header, stream);
    assert FieldsAt(stream).length == At32(stream, 4);
    assert stream[16..16 + |message.payload|] == message.payload;
  }

  lemma {:induction false} BytesOfFirst(first: Message, messages: seq<Message>)
    ensures BytesOf([first] + messages) == first.ToBytes() + BytesOf(messages)
  {
    var all := [first] + messages;
    if messages == [] {
      NothingSent();
      BytesOfLast([], first);
      hide *;
      assert all == [] + [first];
      assert [] + first.ToBytes() == first.ToBytes() + [];
    } else {
      hide *;
      var n := |messages| - 1;
      BytesOfFirst(first, messages[..n]);
      BytesOfLast(messages[..n], messages[n]);
      BytesOfLast([first] + messages[..n], messages[n]);
      assert messages == messages[..n] + [messages[n]];
      assert all == [first] + messages[..n] + [messages[n]];
      Associative(first.ToBytes(), BytesOf(messages[..n]), messages[n].ToBytes());
    }
  }

  lemma NothingSent()
    ensures BytesOf([]) == []
  {
  }

  lemma {:induction false} SentParse(messages: seq<Message>)
    requires AllProper(messages)
    ensures Parse(BytesOf(messages)) == messages && WellFormed(BytesOf(messages))
  {
    hide HasFrame, FrameMessage, Rest, FirstSize, Message.ToBytes;
    if messages == [] {
      NothingParses();
    } else {
      var first, rest := messages[0], messages[1..];
      assert messages == [first] + rest;
      SentParse(rest);
      BytesOfFirst(first, rest);
      MessageIsFrame(first, BytesOf(rest));
      FrameHasSize(BytesOf(messages));
      FrameCoversHeader(BytesOf(messages));
    }
  }

  lemma FrameCoversHeader(stream: seq<byte>)
    requires HasFrame(stream)
    ensures |stream| >= 8 && FirstSize(stream) >= 16
  {
  }

  lemma NothingParses()
    ensures Parse([]) == [] && WellFormed([])
  {
  }

  /** Messages sent one after the other arrive as they are: however the stream is cut, what is delivered
      is a prefix of them, all of them once a call finds no further message; and with a pull reader all
      of them, with nothing left over. */
  lemma MessagesArrive(messages: seq<Message>, chunks: seq<seq<byte>>)
    requires AllProper(messages) && Joined(chunks) == BytesOf(messages)
    ensures var (delivered, last) := Run(INITIAL, chunks);
            && delivered <= messages
            && (!HasFrame(last.buffer) ==> delivered == messages && last.buffer == [])
            && (Pulled(chunks) ==> delivered == messages && last.buffer == [])
  {
    hide *;
    SentParse(messages);
    DeliveredPrefix(chunks);
    StreamConservation(chunks);
    if Pulled(chunks) {
      PullReader(chunks);
    }
    var (delivered, last) := Run(INITIAL, chunks);
    if delivered == messages {
      assert last.buffer == [] by {
        assert |BytesOf(messages) + last.buffer| == |BytesOf(messages)|;
      }
    }
  }

  /** A length below 8 ends the stream: nothing behind it is ever delivered, every call raises as soon as
      the announced bytes are there, and the buffer is kept. */
  lemma ShortLengthRaises(stream: seq<byte>, more: seq<byte>)
    requires |stream| >= 8 && At32(stream, 4) < 8
    ensures OutcomeOn(stream + more) == if |stream + more| < At32(stream, 4) + 8 then Pending else Raised(ValueError)
    ensures Rest(stream + more) == stream + more && Parse(stream + more) == []
  {
    SamePrefix(stream, more);
  }
}
