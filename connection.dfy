/**
 * The message-processing engine of a peer connection. Bytes arrive in an input buffer; each round of the processing
 * loop previews the header, validates it, pops one full message, gates it on the handshake and hands it to the
 * handler for its type. Bad messages are counted in a row and close the connection once too many arrive; errors are
 * sorted into tiers that close the connection, re-raise, or discard the message and count a strike.
 *
 * The header preview, validation, decoding and handlers belong to a message factory and to subclasses that are not
 * part of this model: they are parameters of the connection (`Protocol`). The socket is reduced to an `alive` flag
 * that `mark_for_close` clears.
 */
module Connections {
  import opened Wrappers
  import opened Bytes
  import opened MessageTypes

  /** `constants.MAX_BAD_MESSAGES`. */
  const MAX_BAD_MESSAGES: nat := 3

  /** `constants.PING_INTERVAL_S`. */
  const PING_INTERVAL_S: int := 60

  /** `constants.CANCEL_ALARMS`: what an alarm callback returns so that it is not scheduled again. */
  const CANCEL_ALARMS: int := 0

  /** The `ConnectionState` flags the modelled code sets or tests. */
  datatype ConnectionState = Connecting | HelloRecvd | HelloAckd | Established

  /** The exceptions `process_message` tells apart; `OtherError` is any other `Exception`. */
  datatype ProcessingError =
    | PayloadLenError
    | MemoryError
    | UnauthorizedMessageError
    | MessageValidationError
    | NonVersionMessageError
    | OtherError

  /** `ConnectionAuthenticationError`: a different account id for an authenticated connection. */
  datatype AuthError = ConnectionAuthenticationError(given: Option<string>, current: Option<string>)

  /** What the message factory reports about the front of the input buffer. */
  datatype HeaderPreview = HeaderPreview(isFullMsg: bool, msgType: Option<MessageType>, payloadLen: nat)

  /** A decoded message: its type, its bytes and, for a hello, the peer's node id. */
  datatype Message = Message(msgType: Option<MessageType>, rawBytes: seq<byte>, nodeId: Option<string>)

  /** The part of a connection a message handler reads and changes. */
  datatype HandlerView = HandlerView(state: set<ConnectionState>, alive: bool, outputbuf: seq<seq<byte>>)

  /** A message handler: its effect on the connection, or the exception it raises. */
  type Handler = (Message, HandlerView) -> Result<HandlerView, ProcessingError>

  /**
   * What a concrete connection plugs into the engine: the factory's header length, header preview and decoding,
   * the connection's `header_size`, its validator, its handler table and the types it accepts before the handshake.
   */
  datatype Protocol = Protocol(
    headerLength: nat,
    headerSize: nat,
    preview: seq<byte> -> Result<HeaderPreview, ProcessingError>,
    validate: (bool, Option<MessageType>, nat, nat, seq<byte>) -> Option<ProcessingError>,
    decode: seq<byte> -> Result<Option<Message>, ProcessingError>,
    handlers: map<MessageType, Handler>,
    helloMessages: set<MessageType>)

  /**
   * What the engine relies on from the factory: a header is not empty, and a preview reports a full message only
   * when the buffer holds its header and payload.
   */
  ghost predicate Sound(p: Protocol)
  {
    && p.headerLength > 0
    && forall b: seq<byte> :: p.preview(b).Ok? && p.preview(b).value.isFullMsg ==>
         p.headerLength + p.preview(b).value.payloadLen <= |b|
  }

  /** The connection state the processing loop reads and changes. */
  datatype Conn = Conn(
    inputbuf: seq<byte>,
    state: set<ConnectionState>,
    alive: bool,
    numBadMessages: nat,
    outputbuf: seq<seq<byte>>)

  /** The end of one round of the loop: go on with the next one, or leave the loop (re-raising or not). */
  datatype Next = Continue(s: Conn) | Stop(s: Conn, raised: bool)

  /** The end of `process_message`: the connection state, and whether a `MemoryError` escapes. */
  datatype Processed = Processed(s: Conn, raised: bool)

  /** `t in types` for a type that may be missing. */
  predicate InTypes(t: Option<MessageType>, types: set<MessageType>)
  {
    t.Some? && t.value in types
  }

  /** `mark_for_close()`: the socket is no longer alive. */
  function Closed(s: Conn): Conn
  {
    s.(alive := false)
  }

  /** `enqueue_msg_bytes(bytes, prepend)` on an output buffer: nothing on a dead socket. */
  function Enqueued(out: seq<seq<byte>>, alive: bool, bytes: seq<byte>, prepend: bool): seq<seq<byte>>
  {
    if !alive then out else if prepend then [bytes] + out else out + [bytes]
  }

  /** `InputBuffer.remove_bytes(n)`: what is left after the first n bytes are removed. */
  function RemoveBytes(buf: seq<byte>, n: nat): (r: seq<byte>)
    ensures |r| <= |buf| && r == buf[|buf| - |r|..]
    ensures n <= |buf| ==> |r| == |buf| - n
  {
    if n <= |buf| then buf[n..] else []
  }

  /** The bytes `InputBuffer.remove_bytes(n)` hands back. */
  function TakeBytes(buf: seq<byte>, n: nat): (r: seq<byte>)
    ensures r + RemoveBytes(buf, n) == buf
  {
    if n <= |buf| then buf[..n] else buf
  }

  /** `_report_bad_message()`: close at the limit, otherwise count one more bad message. */
  function ReportBad(s: Conn): Next
  {
    if s.numBadMessages == MAX_BAD_MESSAGES then Stop(Closed(s), false)
    else Continue(s.(numBadMessages := s.numBadMessages + 1))
  }

  /** `clean_up_current_msg(payload_len, msg_is_in_input_buffer)`. */
  function CleanUp(p: Protocol, s: Conn, payloadLen: nat, msgIsInInputBuffer: bool): Conn
  {
    if msgIsInInputBuffer then s.(inputbuf := RemoveBytes(s.inputbuf, p.headerSize + payloadLen)) else s
  }

  /** `pop_next_message(payload_len)`: remove header and payload from the buffer and decode them. */
  function Pop(p: Protocol, s: Conn, payloadLen: nat): (Result<Option<Message>, ProcessingError>, Conn)
  {
    var n := p.headerLength + payloadLen;
    (p.decode(TakeBytes(s.inputbuf, n)), s.(inputbuf := RemoveBytes(s.inputbuf, n)))
  }

  /**
   * The `except` clauses of `process_message` for an exception `e` raised while the locals held `isFull` and
   * `payloadLen`, the buffer having held `lenBefore` bytes when the round began.
   */
  function OnError(p: Protocol, s: Conn, e: ProcessingError, isFull: bool, payloadLen: nat, lenBefore: nat): Next
  {
    match e
    case PayloadLenError => Stop(Closed(s), false)
    case MemoryError => Stop(s, true)
    case UnauthorizedMessageError => ReportBad(CleanUp(p, s, payloadLen, lenBefore == |s.inputbuf|))
    case MessageValidationError =>
      if isFull then ReportBad(CleanUp(p, s, payloadLen, lenBefore == |s.inputbuf|)) else Stop(Closed(s), false)
    case NonVersionMessageError => Stop(Closed(s), false)
    case OtherError =>
      if isFull then ReportBad(CleanUp(p, s, payloadLen, lenBefore == |s.inputbuf|)) else Stop(Closed(s), false)
  }

  function View(s: Conn): HandlerView
  {
    HandlerView(s.state, s.alive, s.outputbuf)
  }

  function WithView(s: Conn, v: HandlerView): Conn
  {
    s.(state := v.state, alive := v.alive, outputbuf := v.outputbuf)
  }

  /** One round of the `while True` loop of `process_message`. */
  function Step(p: Protocol, s: Conn): Next
  {
    if !s.alive then Stop(s, false)
    else match p.preview(s.inputbuf)
      case Err(e) => OnError(p, s, e, false, 0, |s.inputbuf|)
      case Ok(h) => Previewed(p, s, h)
  }

  /** The rest of a round once the header preview gave `h`: validate, then pop a full message. */
  function Previewed(p: Protocol, s: Conn, h: HeaderPreview): Next
  {
    match p.validate(h.isFullMsg, h.msgType, p.headerSize, h.payloadLen, s.inputbuf)
    case Some(e) => OnError(p, s, e, h.isFullMsg, h.payloadLen, |s.inputbuf|)
    case None =>
      if !h.isFullMsg then Stop(s, false)
      else Decoded(p, h, |s.inputbuf|, Pop(p, s, h.payloadLen).0, Pop(p, s, h.payloadLen).1)
  }

  /** The rest of a round once the message is popped (`s`) and decoding gave `d`. */
  function Decoded(p: Protocol, h: HeaderPreview, lenBefore: nat, d: Result<Option<Message>, ProcessingError>,
                   s: Conn): Next
  {
    match d
    case Err(e) => OnError(p, s, e, true, h.payloadLen, lenBefore)
    case Ok(None) => ReportBad(s)
    case Ok(Some(msg)) => Dispatched(p, h, lenBefore, msg, s)
  }

  /** The rest of a round for a decoded message: the handshake gate, then its handler if it has one. */
  function Dispatched(p: Protocol, h: HeaderPreview, lenBefore: nat, msg: Message, s: Conn): Next
  {
    if Established !in s.state && !InTypes(h.msgType, p.helloMessages) then Stop(Closed(s), false)
    else if h.msgType.Some? && h.msgType.value in p.handlers then
      match p.handlers[h.msgType.value](msg, View(s))
      case Err(e) => OnError(p, s, e, true, h.payloadLen, lenBefore)
      case Ok(v) => Continue(WithView(s, v).(numBadMessages := 0))
    else Continue(s.(numBadMessages := 0))
  }

  /** A suffix relation on input buffers: `t` is what is left of `b` after bytes were removed from its front. */
  predicate Consumed(b: seq<byte>, t: seq<byte>)
  {
    |t| <= |b| && t == b[|b| - |t|..]
  }

  /**
   * What an exception does to the loop: a round that goes on has counted a strike; one that stops has closed the
   * connection or re-raises; only the input buffer loses bytes, and only from the front.
   */
  lemma OnErrorEffects(p: Protocol, s: Conn, e: ProcessingError, isFull: bool, payloadLen: nat, lenBefore: nat)
    ensures var r := OnError(p, s, e, isFull, payloadLen, lenBefore);
      && r.s.state == s.state && r.s.outputbuf == s.outputbuf
      && Consumed(s.inputbuf, r.s.inputbuf)
      && (r.Continue? ==>
            r.s.numBadMessages == s.numBadMessages + 1 && r.s.alive == s.alive
            && s.numBadMessages != MAX_BAD_MESSAGES)
      && (r.Stop? ==> r.s.numBadMessages == s.numBadMessages && (r.raised || !r.s.alive))
  {
    var c := CleanUp(p, s, payloadLen, lenBefore == |s.inputbuf|);
    assert Consumed(s.inputbuf, c.inputbuf);
    ReportBadEffects(c);
  }

  /** A strike keeps everything but the counter, or closes the connection at the limit. */
  lemma ReportBadEffects(s: Conn)
    ensures var r := ReportBad(s);
      && r.s.state == s.state && r.s.outputbuf == s.outputbuf && r.s.inputbuf == s.inputbuf
      && (r.Continue? ==>
            r.s.numBadMessages == s.numBadMessages + 1 && r.s.alive == s.alive
            && s.numBadMessages != MAX_BAD_MESSAGES)
      && (r.Stop? ==> r.s.numBadMessages == s.numBadMessages && !r.raised && !r.s.alive)
  {
  }

  /** The loop's rounds leave quietly when no full message waits behind a valid header. */
  predicate Waiting(p: Protocol, s: Conn)
  {
    && p.preview(s.inputbuf).Ok?
    && !p.preview(s.inputbuf).value.isFullMsg
    && p.validate(false, p.preview(s.inputbuf).value.msgType, p.headerSize,
                  p.preview(s.inputbuf).value.payloadLen, s.inputbuf).None?
  }

  /** What the rest of a round does with a decoded message. */
  lemma DispatchedEffects(p: Protocol, h: HeaderPreview, lenBefore: nat, msg: Message, s: Conn)
    ensures var r := Dispatched(p, h, lenBefore, msg, s);
      && Consumed(s.inputbuf, r.s.inputbuf)
      && r.s.numBadMessages <= s.numBadMessages + 1
      && (r.Continue? && r.s.numBadMessages != 0 ==>
            r.s.numBadMessages == s.numBadMessages + 1 && s.numBadMessages != MAX_BAD_MESSAGES)
      && (r.Continue? && r.s.numBadMessages == 0 ==> r.s.inputbuf == s.inputbuf)
      && (r.Stop? ==> (r.raised || !r.s.alive) && r.s.numBadMessages <= s.numBadMessages)
  {
    if h.msgType.Some? && h.msgType.value in p.handlers && p.handlers[h.msgType.value](msg, View(s)).Err? {
      OnErrorEffects(p, s, p.handlers[h.msgType.value](msg, View(s)).error, true, h.payloadLen, lenBefore);
    }
  }

  /** What the rest of a round does once the message is popped. */
  lemma DecodedEffects(p: Protocol, h: HeaderPreview, lenBefore: nat, d: Result<Option<Message>, ProcessingError>,
                       s: Conn)
    ensures var r := Decoded(p, h, lenBefore, d, s);
      && Consumed(s.inputbuf, r.s.inputbuf)
      && (r.Continue? && r.s.numBadMessages != 0 ==>
            r.s.numBadMessages == s.numBadMessages + 1 && s.numBadMessages != MAX_BAD_MESSAGES)
      && (r.Continue? && r.s.numBadMessages == 0 ==> r.s.inputbuf == s.inputbuf)
      && (r.Stop? ==> (r.raised || !r.s.alive) && r.s.numBadMessages <= s.numBadMessages)
  {
    match d
    case Err(e) => OnErrorEffects(p, s, e, true, h.payloadLen, lenBefore);
    case Ok(None) =>
    case Ok(Some(msg)) => DispatchedEffects(p, h, lenBefore, msg, s);
  }

  /** What the rest of a round does once the header preview gave `h`. */
  lemma PreviewedEffects(p: Protocol, s: Conn, h: HeaderPreview)
    requires s.alive
    ensures var r := Previewed(p, s, h);
      && Consumed(s.inputbuf, r.s.inputbuf)
      && (r.Stop? ==> r.raised || !r.s.alive
                      || (r.s == s && !h.isFullMsg
                          && p.validate(false, h.msgType, p.headerSize, h.payloadLen, s.inputbuf).None?))
      && (r.Stop? ==> r.s.numBadMessages <= s.numBadMessages)
      && (r.Continue? && r.s.numBadMessages != 0 ==>
            r.s.numBadMessages == s.numBadMessages + 1 && s.numBadMessages != MAX_BAD_MESSAGES)
      && (r.Continue? && r.s.numBadMessages == 0 ==>
            h.isFullMsg && r.s.inputbuf == RemoveBytes(s.inputbuf, p.headerLength + h.payloadLen))
  {
    match p.validate(h.isFullMsg, h.msgType, p.headerSize, h.payloadLen, s.inputbuf)
    case Some(e) =>
      OnErrorEffects(p, s, e, h.isFullMsg, h.payloadLen, |s.inputbuf|);
    case None =>
      if h.isFullMsg {
        var popped := Pop(p, s, h.payloadLen);
        var r := Previewed(p, s, h);
        DecodedEffects(p, h, |s.inputbuf|, popped.0, popped.1);
        assert Consumed(popped.1.inputbuf, r.s.inputbuf);
        assert r.s.inputbuf == s.inputbuf[|s.inputbuf| - |popped.1.inputbuf|..][|popped.1.inputbuf| - |r.s.inputbuf|..];
      }
  }

  /**
   * What one round does: it only consumes input from the front; a round that leaves the loop has closed the
   * connection, re-raises, or found no full message and changed nothing; a round that goes on has either counted a
   * strike or handled a full message it popped.
   */
  lemma StepEffects(p: Protocol, s: Conn)
    ensures var r := Step(p, s);
      && Consumed(s.inputbuf, r.s.inputbuf)
      && (r.Stop? ==> r.raised || !r.s.alive || (r.s == s && Waiting(p, s)))
      && (r.Stop? ==> r.s.numBadMessages <= s.numBadMessages)
      && (r.Continue? && r.s.numBadMessages != 0 ==>
            r.s.numBadMessages == s.numBadMessages + 1 && s.numBadMessages != MAX_BAD_MESSAGES)
      && (r.Continue? && r.s.numBadMessages == 0 ==>
            && p.preview(s.inputbuf).Ok? && p.preview(s.inputbuf).value.isFullMsg
            && r.s.inputbuf == RemoveBytes(s.inputbuf, p.headerLength + p.preview(s.inputbuf).value.payloadLen))
  {
    if s.alive {
      match p.preview(s.inputbuf)
      case Err(e) => OnErrorEffects(p, s, e, false, 0, |s.inputbuf|);
      case Ok(h) => PreviewedEffects(p, s, h);
    }
  }

  /**
   * Every round that goes on stays within the bad-message limit and either consumes input or counts a strike: the
   * loop ends.
   */
  lemma StepProgress(p: Protocol, s: Conn)
    requires Sound(p) && s.numBadMessages <= MAX_BAD_MESSAGES
    ensures var r := Step(p, s);
      r.Continue? ==>
        && r.s.numBadMessages <= MAX_BAD_MESSAGES
        && (|r.s.inputbuf| < |s.inputbuf|
            || (|r.s.inputbuf| == |s.inputbuf| && r.s.numBadMessages > s.numBadMessages))
  {
    StepEffects(p, s);
    if p.preview(s.inputbuf).Ok? {
      var h := p.preview(s.inputbuf).value;
      assert h.isFullMsg ==> p.headerLength + h.payloadLen <= |s.inputbuf|;
    }
  }

  /** `process_message()`: rounds until one leaves the loop. */
  function Process(p: Protocol, s: Conn): Processed
    requires Sound(p) && s.numBadMessages <= MAX_BAD_MESSAGES
    decreases |s.inputbuf|, MAX_BAD_MESSAGES - s.numBadMessages
  {
    StepProgress(p, s);
    match Step(p, s)
    case Stop(t, raised) => Processed(t, raised)
    case Continue(t) => Process(p, t)
  }

  /**
   * One round of the loop of `process_message` seen from its start: when the round from `before` leaves `after`,
   * `Process` from `start` is what it is from `after`, or `after` is its result; the measure goes down.
   */
  lemma ProcessRoundStep(p: Protocol, start: Conn, before: Conn, after: Conn, stop: bool, raised: bool)
    requires Sound(p) && start.numBadMessages <= MAX_BAD_MESSAGES && before.numBadMessages <= MAX_BAD_MESSAGES
    requires Process(p, before) == Process(p, start)
    requires Step(p, before) == if stop then Stop(after, raised) else Continue(after)
    ensures stop ==> Processed(after, raised) == Process(p, start)
    ensures !stop ==>
      && after.numBadMessages <= MAX_BAD_MESSAGES
      && Process(p, after) == Process(p, start)
      && (|after.inputbuf| < |before.inputbuf|
          || (|after.inputbuf| == |before.inputbuf| && after.numBadMessages > before.numBadMessages))
  {
    StepProgress(p, before);
  }

  /** A decoded message that passes the handshake gate and whose handler, if any, does not raise. */
  predicate HandledMsg(p: Protocol, h: HeaderPreview, msg: Message, s: Conn)
  {
    && (Established in s.state || InTypes(h.msgType, p.helloMessages))
    && (h.msgType.Some? && h.msgType.value in p.handlers ==> p.handlers[h.msgType.value](msg, View(s)).Ok?)
  }

  /** The rounds of `process_message` that finish the `try` body and so reach its `else` clause. */
  predicate Handled(p: Protocol, s: Conn)
  {
    && s.alive
    && p.preview(s.inputbuf).Ok?
    && var h := p.preview(s.inputbuf).value;
    && p.validate(h.isFullMsg, h.msgType, p.headerSize, h.payloadLen, s.inputbuf).None?
    && h.isFullMsg
    && var popped := Pop(p, s, h.payloadLen);
    && popped.0.Ok? && popped.0.value.Some?
    && HandledMsg(p, h, popped.0.value.value, popped.1)
  }

  lemma DispatchedResets(p: Protocol, h: HeaderPreview, lenBefore: nat, msg: Message, s: Conn)
    ensures var r := Dispatched(p, h, lenBefore, msg, s);
      && (HandledMsg(p, h, msg, s) ==> r.Continue? && r.s.numBadMessages == 0)
      && (!HandledMsg(p, h, msg, s) && r.Continue? ==> r.s.numBadMessages == s.numBadMessages + 1)
  {
    if h.msgType.Some? && h.msgType.value in p.handlers && p.handlers[h.msgType.value](msg, View(s)).Err? {
      OnErrorEffects(p, s, p.handlers[h.msgType.value](msg, View(s)).error, true, h.payloadLen, lenBefore);
    }
  }

  /**
   * The bad-message counter is reset exactly by the rounds that finish the `try` body; every other round that goes
   * on counts one strike.
   */
  lemma StepResetsOnlyWhenHandled(p: Protocol, s: Conn)
    ensures Handled(p, s) ==> Step(p, s).Continue? && Step(p, s).s.numBadMessages == 0
    ensures !Handled(p, s) && Step(p, s).Continue? ==> Step(p, s).s.numBadMessages == s.numBadMessages + 1
  {
    if s.alive {
      match p.preview(s.inputbuf)
      case Err(e) =>
        OnErrorEffects(p, s, e, false, 0, |s.inputbuf|);
      case Ok(h) =>
        match p.validate(h.isFullMsg, h.msgType, p.headerSize, h.payloadLen, s.inputbuf)
        case Some(e) =>
          OnErrorEffects(p, s, e, h.isFullMsg, h.payloadLen, |s.inputbuf|);
        case None =>
          if h.isFullMsg {
            var popped := Pop(p, s, h.payloadLen);
            match popped.0
            case Err(e) =>
              OnErrorEffects(p, popped.1, e, true, h.payloadLen, |s.inputbuf|);
            case Ok(None) =>
            case Ok(Some(msg)) =>
              DispatchedResets(p, h, |s.inputbuf|, msg, popped.1);
          }
    }
  }

  /** The loop leaves quietly, changing nothing, on a dead socket and on a valid header of an incomplete message. */
  lemma StepQuietExit(p: Protocol, s: Conn)
    ensures !s.alive ==> Step(p, s) == Stop(s, false)
    ensures s.alive && p.preview(s.inputbuf).Ok? && !p.preview(s.inputbuf).value.isFullMsg
            && p.validate(false, p.preview(s.inputbuf).value.msgType, p.headerSize,
                          p.preview(s.inputbuf).value.payloadLen, s.inputbuf).None?
            ==> Step(p, s) == Stop(s, false)
  {
  }

  /** `pop_next_message` consumes exactly the header and the payload and decodes those bytes. */
  lemma PopConsumes(p: Protocol, s: Conn, payloadLen: nat)
    requires p.headerLength + payloadLen <= |s.inputbuf|
    ensures var n := p.headerLength + payloadLen; var popped := Pop(p, s, payloadLen);
      && popped.0 == p.decode(s.inputbuf[..n])
      && popped.1 == s.(inputbuf := s.inputbuf[n..])
      && |popped.1.inputbuf| == |s.inputbuf| - n
  {
  }

  /**
   * Before the handshake, a full message of a type outside `hello_messages` closes the connection and ends the loop
   * with no strike; the message is consumed.
   */
  lemma StepPreHandshakeGate(p: Protocol, s: Conn)
    requires s.alive && p.preview(s.inputbuf).Ok?
    requires var h := p.preview(s.inputbuf).value;
      && h.isFullMsg
      && p.validate(true, h.msgType, p.headerSize, h.payloadLen, s.inputbuf).None?
      && Pop(p, s, h.payloadLen).0.Ok? && Pop(p, s, h.payloadLen).0.value.Some?
      && Established !in s.state && !InTypes(h.msgType, p.helloMessages)
    ensures var h := p.preview(s.inputbuf).value;
      && Step(p, s) == Stop(Closed(Pop(p, s, h.payloadLen).1), false)
      && Step(p, s).s.numBadMessages == s.numBadMessages
      && !Step(p, s).s.alive
  {
  }

  /** A full message that decodes to nothing is consumed and counts as a bad message. */
  lemma StepStrikesOnUndecodable(p: Protocol, s: Conn)
    requires s.alive && p.preview(s.inputbuf).Ok?
    requires var h := p.preview(s.inputbuf).value;
      && h.isFullMsg
      && p.validate(true, h.msgType, p.headerSize, h.payloadLen, s.inputbuf).None?
      && Pop(p, s, h.payloadLen).0 == Ok(None)
    ensures Step(p, s) == ReportBad(Pop(p, s, p.preview(s.inputbuf).value.payloadLen).1)
  {
  }

  /**
   * The error tiers: a payload-length or non-version error closes with no strike, a `MemoryError` escapes, an
   * unauthorized message or an error on a full message discards the message (when it is still in the buffer) and
   * counts a strike, and an error on an incomplete message closes.
   */
  lemma ErrorTiers(p: Protocol, s: Conn, e: ProcessingError, isFull: bool, payloadLen: nat)
    ensures var r := OnError(p, s, e, isFull, payloadLen, |s.inputbuf|);
      && (e == PayloadLenError || e == NonVersionMessageError ==>
            r == Stop(s.(alive := false), false))
      && (e == MemoryError ==> r == Stop(s, true))
      && (e == UnauthorizedMessageError || (isFull && (e == MessageValidationError || e == OtherError)) ==>
            && r.s.inputbuf == RemoveBytes(s.inputbuf, p.headerSize + payloadLen)
            && (r.Stop? <==> s.numBadMessages == MAX_BAD_MESSAGES)
            && (r.Stop? ==> !r.s.alive && !r.raised && r.s.numBadMessages == s.numBadMessages)
            && (r.Continue? ==> r.s.numBadMessages == s.numBadMessages + 1 && r.s.alive == s.alive))
      && (!isFull && (e == MessageValidationError || e == OtherError) ==>
            r == Stop(s.(alive := false), false))
    ensures forall lenBefore: nat {:trigger OnError(p, s, e, isFull, payloadLen, lenBefore)} ::
      lenBefore != |s.inputbuf| ==>
        OnError(p, s, e, isFull, payloadLen, lenBefore).s.inputbuf == s.inputbuf
  {
  }

  /** `k` bad messages in a row. */
  function Strikes(s: Conn, k: nat): Next
    decreases k
  {
    if k == 0 then Continue(s)
    else match ReportBad(s)
      case Stop(t, raised) => Stop(t, raised)
      case Continue(t) => Strikes(t, k - 1)
  }

  /**
   * Bad messages in a row close the connection once the counter has reached the limit: k strikes survive exactly
   * when the counter plus k stays within it.
   */
  lemma {:induction false} StrikesClose(s: Conn, k: nat)
    requires s.numBadMessages <= MAX_BAD_MESSAGES
    ensures Strikes(s, k).Continue? <==> s.numBadMessages + k <= MAX_BAD_MESSAGES
    ensures Strikes(s, k).Continue? ==> Strikes(s, k).s == s.(numBadMessages := s.numBadMessages + k)
    ensures Strikes(s, k).Stop? ==>
      Strikes(s, k) == Stop(s.(numBadMessages := MAX_BAD_MESSAGES, alive := false), false)
    decreases k
  {
    if k > 0 && s.numBadMessages < MAX_BAD_MESSAGES {
      StrikesClose(s.(numBadMessages := s.numBadMessages + 1), k - 1);
    }
  }

  /** From a clean counter, three bad messages in a row are tolerated and the fourth closes the connection. */
  lemma FourthBadMessageCloses(s: Conn)
    requires s.numBadMessages == 0
    ensures Strikes(s, 3).Continue? && Strikes(s, 3).s.numBadMessages == MAX_BAD_MESSAGES
    ensures Strikes(s, 4).Stop? && !Strikes(s, 4).s.alive
  {
    StrikesClose(s, 3);
    StrikesClose(s, 4);
  }

  lemma ConsumedTrans(a: seq<byte>, b: seq<byte>, c: seq<byte>)
    requires Consumed(a, b) && Consumed(b, c)
    ensures Consumed(a, c)
  {
    assert c == a[|a| - |b|..][|b| - |c|..];
  }

  /** `process_message` only ever removes bytes from the front of the input buffer. */
  lemma {:induction false} ProcessConsumes(p: Protocol, s: Conn)
    requires Sound(p) && s.numBadMessages <= MAX_BAD_MESSAGES
    ensures Consumed(s.inputbuf, Process(p, s).s.inputbuf)
    decreases |s.inputbuf|, MAX_BAD_MESSAGES - s.numBadMessages
  {
    StepProgress(p, s);
    StepEffects(p, s);
    var r := Step(p, s);
    if r.Continue? {
      ProcessConsumes(p, r.s);
      assert Process(p, s) == Process(p, r.s);
      ConsumedTrans(s.inputbuf, r.s.inputbuf, Process(p, r.s).s.inputbuf);
    } else {
      assert Process(p, s).s == r.s;
    }
  }

  /**
   * `process_message` returns with the connection closed, with a `MemoryError`, or with the buffer holding no
   * full message; the counter stays within the limit.
   */
  lemma {:induction false} ProcessEnds(p: Protocol, s: Conn)
    requires Sound(p) && s.numBadMessages <= MAX_BAD_MESSAGES
    ensures var r := Process(p, s);
      && (r.raised || !r.s.alive || Waiting(p, r.s))
      && r.s.numBadMessages <= MAX_BAD_MESSAGES
    decreases |s.inputbuf|, MAX_BAD_MESSAGES - s.numBadMessages
  {
    StepProgress(p, s);
    StepEffects(p, s);
    if Step(p, s).Continue? {
      ProcessEnds(p, Step(p, s).s);
    }
  }

  /** A handler keeps the flags of the connection it changes. */
  predicate KeepsFlags(h: Handler, m: Message, v: HandlerView)
  {
    h(m, v).Ok? ==> v.state <= h(m, v).value.state
  }

  ghost predicate HandlersKeepFlags(p: Protocol)
  {
    forall t, m, v :: t in p.handlers ==> KeepsFlags(p.handlers[t], m, v)
  }

  /** A round never clears a flag itself; whatever a handler sets stays set. */
  lemma StepKeepsFlags(p: Protocol, s: Conn)
    requires HandlersKeepFlags(p)
    ensures s.state <= Step(p, s).s.state
  {
    if s.alive && p.preview(s.inputbuf).Ok? {
      var h := p.preview(s.inputbuf).value;
      if p.validate(h.isFullMsg, h.msgType, p.headerSize, h.payloadLen, s.inputbuf).None? && h.isFullMsg {
        var popped := Pop(p, s, h.payloadLen);
        if popped.0.Ok? && popped.0.value.Some? {
          var msg := popped.0.value.value;
          if h.msgType.Some? && h.msgType.value in p.handlers {
            assert KeepsFlags(p.handlers[h.msgType.value], msg, View(popped.1));
            if p.handlers[h.msgType.value](msg, View(popped.1)).Err? {
              OnErrorEffects(p, popped.1, p.handlers[h.msgType.value](msg, View(popped.1)).error, true,
                             h.payloadLen, |s.inputbuf|);
            }
          }
        } else if popped.0.Err? {
          OnErrorEffects(p, popped.1, popped.0.error, true, h.payloadLen, |s.inputbuf|);
        }
      } else if p.validate(h.isFullMsg, h.msgType, p.headerSize, h.payloadLen, s.inputbuf).Some? {
        OnErrorEffects(p, s, p.validate(h.isFullMsg, h.msgType, p.headerSize, h.payloadLen, s.inputbuf).value,
                       h.isFullMsg, h.payloadLen, |s.inputbuf|);
      }
    } else if s.alive {
      OnErrorEffects(p, s, p.preview(s.inputbuf).error, false, 0, |s.inputbuf|);
    }
  }

  /** `process_message` never clears a flag itself; whatever a handler sets stays set. */
  lemma {:induction false} ProcessKeepsFlags(p: Protocol, s: Conn)
    requires Sound(p) && s.numBadMessages <= MAX_BAD_MESSAGES
    requires HandlersKeepFlags(p)
    ensures s.state <= Process(p, s).s.state
    decreases |s.inputbuf|, MAX_BAD_MESSAGES - s.numBadMessages
  {
    StepProgress(p, s);
    StepKeepsFlags(p, s);
    if Step(p, s).Continue? {
      ProcessKeepsFlags(p, Step(p, s).s);
    }
  }

  /** `msg_ack` as a handler: the hello is acknowledged; the `on_connection_established` it may call changes nothing. */
  function AckHandler(m: Message, v: HandlerView): Result<HandlerView, ProcessingError>
  {
    Ok(v.(state := v.state + {HelloAckd}))
  }

  /** `msg_ping` as a handler: the pong is enqueued. */
  function PingHandler(pong: seq<byte>): Handler
  {
    (m: Message, v: HandlerView) => Ok(v.(outputbuf := Enqueued(v.outputbuf, v.alive, pong, false)))
  }

  /** `msg_pong` as a handler: nothing. */
  function PongHandler(m: Message, v: HandlerView): Result<HandlerView, ProcessingError>
  {
    Ok(v)
  }

  /** The base handlers keep every flag, never raise, and never set `ESTABLISHED`. */
  lemma BaseHandlersKeepFlags(pong: seq<byte>, m: Message, v: HandlerView)
    ensures KeepsFlags(AckHandler, m, v) && KeepsFlags(PingHandler(pong), m, v) && KeepsFlags(PongHandler, m, v)
    ensures AckHandler(m, v).Ok? && (Established in AckHandler(m, v).value.state <==> Established in v.state)
    ensures PingHandler(pong)(m, v).Ok? && PingHandler(pong)(m, v).value.state == v.state
    ensures PongHandler(m, v) == Ok(v)
  {
  }

  /** The loop of `msg_hello` over the connections sharing a peer id: each inbound one is marked for close. */
  method CloseInbound(conns: set<Connection>)
    modifies conns
    ensures forall c :: c in conns ==> c.alive == (old(c.alive) && c.fromMe)
    ensures forall c :: c in conns ==> c.Snap() == old(c.Snap()).(alive := c.alive) && c.Session() == old(c.Session())
  {
    var rest := conns;
    while rest != {}
      invariant rest <= conns
      invariant forall c :: c in conns - rest ==> c.alive == (old(c.alive) && c.fromMe)
      invariant forall c :: c in conns ==> c.Snap() == old(c.Snap()).(alive := c.alive) && c.Session() == old(c.Session())
      invariant forall c :: c in rest ==> c.alive == old(c.alive)
      decreases |rest|
    {
      var conn :| conn in rest;
      if !conn.fromMe {
        conn.MarkForClose();
      }
      rest := rest - {conn};
    }
  }

  /** The node a connection belongs to: its connection pool index, retry counters and alarm queue. */
  class Node {
    var connectionsByNodeId: map<string, set<Connection>>
    var numRetriesByIp: map<(string, int), nat>
    var alarms: set<nat>
    var nextAlarmId: nat

    constructor()
      ensures connectionsByNodeId == map[] && numRetriesByIp == map[] && alarms == {} && nextAlarmId == 0
    {
      connectionsByNodeId := map[];
      numRetriesByIp := map[];
      alarms := {};
      nextAlarmId := 0;
    }

    /** Every registered alarm id was handed out before. */
    predicate Valid()
      reads this
    {
      forall a :: a in alarms ==> a < nextAlarmId
    }

    /** `connection_pool.get_by_node_id(node_id)`. */
    function GetByNodeId(id: Option<string>): set<Connection>
      reads this
    {
      if id.Some? && id.value in connectionsByNodeId then connectionsByNodeId[id.value] else {}
    }

    /** `connection_pool.index_conn_node_id(node_id, conn)`; a missing id is not indexed. */
    method IndexConnNodeId(id: Option<string>, c: Connection)
      modifies this
      ensures id.Some? ==> connectionsByNodeId == old(connectionsByNodeId)[id.value := old(GetByNodeId(id)) + {c}]
      ensures id.None? ==> connectionsByNodeId == old(connectionsByNodeId)
      ensures GetByNodeId(id) == if id.Some? then old(GetByNodeId(id)) + {c} else {}
      ensures numRetriesByIp == old(numRetriesByIp) && alarms == old(alarms) && nextAlarmId == old(nextAlarmId)
    {
      if id.Some? {
        connectionsByNodeId := connectionsByNodeId[id.value := GetByNodeId(id) + {c}];
      }
    }

    /** `alarm_queue.register_alarm(...)`: a fresh alarm id. */
    method RegisterAlarm() returns (id: nat)
      requires Valid()
      modifies this
      ensures Valid()
      ensures id !in old(alarms) && alarms == old(alarms) + {id}
      ensures connectionsByNodeId == old(connectionsByNodeId) && numRetriesByIp == old(numRetriesByIp)
    {
      id := nextAlarmId;
      alarms := alarms + {id};
      nextAlarmId := nextAlarmId + 1;
    }

    /** `alarm_queue.unregister_alarm(id)`. */
    method UnregisterAlarm(id: nat)
      requires Valid()
      modifies this
      ensures Valid()
      ensures alarms == old(alarms) - {id} && nextAlarmId == old(nextAlarmId)
      ensures connectionsByNodeId == old(connectionsByNodeId) && numRetriesByIp == old(numRetriesByIp)
    {
      alarms := alarms - {id};
    }
  }

  /** `AbstractConnection`. */
  class Connection {
    const node: Node
    const fromMe: bool
    const peerIp: string
    const peerPort: int
    const protocol: Protocol
    const pingMessage: seq<byte>
    const pongMessage: seq<byte>
    const ackMessage: seq<byte>

    var state: set<ConnectionState>
    var alive: bool
    var inputbuf: seq<byte>
    var outputbuf: seq<seq<byte>>
    var numBadMessages: nat
    var peerId: Option<string>
    var canSendPings: bool
    var pingIntervalS: int
    var pongTimeoutAlarmId: Option<nat>
    var isAuthenticated: bool
    var accountId: Option<string>

    /** A new connection on a live socket: connecting, no bytes either way, no peer id, not authenticated. */
    constructor(node: Node, fromMe: bool, peerIp: string, peerPort: int, protocol: Protocol,
                pingMessage: seq<byte>, pongMessage: seq<byte>, ackMessage: seq<byte>)
      ensures this.node == node && this.fromMe == fromMe && this.peerIp == peerIp && this.peerPort == peerPort
      ensures this.protocol == protocol
      ensures this.pingMessage == pingMessage && this.pongMessage == pongMessage && this.ackMessage == ackMessage
      ensures Snap() == Conn([], {Connecting}, true, 0, [])
      ensures Session() == (None, false, PING_INTERVAL_S, None, false, None)
    {
      this.node := node;
      this.fromMe := fromMe;
      this.peerIp := peerIp;
      this.peerPort := peerPort;
      this.protocol := protocol;
      this.pingMessage := pingMessage;
      this.pongMessage := pongMessage;
      this.ackMessage := ackMessage;
      state := {Connecting};
      alive := true;
      inputbuf := [];
      outputbuf := [];
      numBadMessages := 0;
      peerId := None;
      canSendPings := false;
      pingIntervalS := PING_INTERVAL_S;
      pongTimeoutAlarmId := None;
      isAuthenticated := false;
      accountId := None;
    }

    /** The fields the processing loop works on. */
    function Snap(): Conn
      reads this
    {
      Conn(inputbuf, state, alive, numBadMessages, outputbuf)
    }

    /** The other fields: peer id, ping settings, pending pong timeout and authentication. */
    function Session(): (Option<string>, bool, int, Option<nat>, bool, Option<string>)
      reads this
    {
      (peerId, canSendPings, pingIntervalS, pongTimeoutAlarmId, isAuthenticated, accountId)
    }

    /** `is_active()`. */
    predicate IsActive()
      reads this
    {
      Established in state && alive
    }

    /** `mark_for_close()`: the socket stops being alive. */
    method MarkForClose()
      modifies this
      ensures Snap() == Closed(old(Snap())) && Session() == old(Session())
    {
      alive := false;
    }

    /** `on_connection_established()`: only a connection that is not active yet becomes established. */
    method OnConnectionEstablished()
      modifies this, node
      ensures !old(IsActive()) ==>
        && state == old(state) + {Established}
        && node.numRetriesByIp == old(node.numRetriesByIp)[(peerIp, peerPort) := 0]
      ensures old(IsActive()) ==> state == old(state) && node.numRetriesByIp == old(node.numRetriesByIp)
      ensures Snap() == old(Snap()).(state := state) && Session() == old(Session())
      ensures node.connectionsByNodeId == old(node.connectionsByNodeId)
      ensures node.alarms == old(node.alarms) && node.nextAlarmId == old(node.nextAlarmId)
    {
      if !IsActive() {
        state := state + {Established};
        node.numRetriesByIp := node.numRetriesByIp[(peerIp, peerPort) := 0];
      }
    }

    /** `enqueue_msg_bytes(msg_bytes, prepend)`; `enqueue_msg` hands it the message's bytes. */
    method EnqueueMsgBytes(msgBytes: seq<byte>, prepend: bool)
      modifies this
      ensures Snap() == old(Snap()).(outputbuf := Enqueued(old(outputbuf), alive, msgBytes, prepend))
      ensures Session() == old(Session())
    {
      if !alive {
        return;
      }
      if prepend {
        outputbuf := [msgBytes] + outputbuf;
      } else {
        outputbuf := outputbuf + [msgBytes];
      }
    }

    /** `_report_bad_message()`. */
    method ReportBadMessage() returns (close: bool)
      modifies this
      ensures ReportBad(old(Snap())) == if close then Stop(Snap(), false) else Continue(Snap())
      ensures Session() == old(Session())
    {
      if numBadMessages == MAX_BAD_MESSAGES {
        MarkForClose();
        return true;
      } else {
        numBadMessages := numBadMessages + 1;
        return false;
      }
    }

    /** `clean_up_current_msg(payload_len, msg_is_in_input_buffer)`. */
    method CleanUpCurrentMsg(payloadLen: nat, msgIsInInputBuffer: bool)
      modifies this
      ensures Snap() == CleanUp(protocol, old(Snap()), payloadLen, msgIsInInputBuffer)
      ensures Session() == old(Session())
    {
      if msgIsInInputBuffer {
        inputbuf := RemoveBytes(inputbuf, protocol.headerSize + payloadLen);
      }
    }

    /** `pop_next_message(payload_len)`. */
    method PopNextMessage(payloadLen: nat) returns (msg: Result<Option<Message>, ProcessingError>)
      modifies this
      ensures (msg, Snap()) == Pop(protocol, old(Snap()), payloadLen)
      ensures Session() == old(Session())
    {
      var msgLen := protocol.headerLength + payloadLen;
      var msgContents := TakeBytes(inputbuf, msgLen);
      inputbuf := RemoveBytes(inputbuf, msgLen);
      msg := protocol.decode(msgContents);
    }

    /** The `except` clauses of `process_message`; `stop` tells whether the loop is left. */
    method HandleError(e: ProcessingError, isFullMsg: bool, payloadLen: nat, inputBufferLenBefore: nat)
      returns (stop: bool, raised: bool)
      modifies this
      ensures OnError(protocol, old(Snap()), e, isFullMsg, payloadLen, inputBufferLenBefore)
              == if stop then Stop(Snap(), raised) else Continue(Snap())
      ensures Session() == old(Session())
    {
      match e
      case PayloadLenError =>
        MarkForClose();
        return true, false;
      case MemoryError =>
        return true, true;
      case UnauthorizedMessageError =>
        CleanUpCurrentMsg(payloadLen, inputBufferLenBefore == |inputbuf|);
        stop := ReportBadMessage();
        return stop, false;
      case MessageValidationError =>
        if isFullMsg {
          CleanUpCurrentMsg(payloadLen, inputBufferLenBefore == |inputbuf|);
        } else {
          MarkForClose();
          return true, false;
        }
        stop := ReportBadMessage();
        return stop, false;
      case NonVersionMessageError =>
        MarkForClose();
        return true, false;
      case OtherError =>
        if isFullMsg {
          CleanUpCurrentMsg(payloadLen, inputBufferLenBefore == |inputbuf|);
        } else {
          MarkForClose();
          return true, false;
        }
        stop := ReportBadMessage();
        return stop, false;
    }

    /** One round of the `while True` loop of `process_message`. */
    method ProcessRound() returns (stop: bool, raised: bool)
      modifies this
      ensures Step(protocol, old(Snap())) == if stop then Stop(Snap(), raised) else Continue(Snap())
      ensures Session() == old(Session())
    {
      if !alive {
        return true, false;
      }
      var preview := protocol.preview(inputbuf);
      if preview.Err? {
        stop, raised := HandleError(preview.error, false, 0, |inputbuf|);
        return;
      }
      stop, raised := ProcessPreviewed(preview.value);
    }

    /** The rest of a round once the header preview gave `h`. */
    method ProcessPreviewed(h: HeaderPreview) returns (stop: bool, raised: bool)
      modifies this
      ensures Previewed(protocol, old(Snap()), h) == if stop then Stop(Snap(), raised) else Continue(Snap())
      ensures Session() == old(Session())
    {
      var inputBufferLenBefore := |inputbuf|;
      var invalid := protocol.validate(h.isFullMsg, h.msgType, protocol.headerSize, h.payloadLen, inputbuf);
      if invalid.Some? {
        stop, raised := HandleError(invalid.value, h.isFullMsg, h.payloadLen, inputBufferLenBefore);
        return;
      }
      if !h.isFullMsg {
        return true, false;
      }
      var msg := PopNextMessage(h.payloadLen);
      stop, raised := ProcessDecoded(h, inputBufferLenBefore, msg);
    }

    /** The rest of a round once the message is popped and decoding gave `msg`. */
    method ProcessDecoded(h: HeaderPreview, inputBufferLenBefore: nat, msg: Result<Option<Message>, ProcessingError>)
      returns (stop: bool, raised: bool)
      modifies this
      ensures Decoded(protocol, h, inputBufferLenBefore, msg, old(Snap()))
              == if stop then Stop(Snap(), raised) else Continue(Snap())
      ensures Session() == old(Session())
    {
      if msg.Err? {
        stop, raised := HandleError(msg.error, true, h.payloadLen, inputBufferLenBefore);
        return;
      }
      if msg.value.None? {
        stop := ReportBadMessage();
        return stop, false;
      }
      stop, raised := ProcessDispatched(h, inputBufferLenBefore, msg.value.value);
    }

    /** The handshake gate and the handler of a decoded message. */
    method ProcessDispatched(h: HeaderPreview, inputBufferLenBefore: nat, msg: Message)
      returns (stop: bool, raised: bool)
      modifies this
      ensures Dispatched(protocol, h, inputBufferLenBefore, msg, old(Snap()))
              == if stop then Stop(Snap(), raised) else Continue(Snap())
      ensures Session() == old(Session())
    {
      if Established !in state && !InTypes(h.msgType, protocol.helloMessages) {
        MarkForClose();
        return true, false;
      }
      if h.msgType.Some? && h.msgType.value in protocol.handlers {
        var handler := protocol.handlers[h.msgType.value];
        var handled := handler(msg, HandlerView(state, alive, outputbuf));
        if handled.Err? {
          stop, raised := HandleError(handled.error, true, h.payloadLen, inputBufferLenBefore);
          return;
        }
        state, alive, outputbuf := handled.value.state, handled.value.alive, handled.value.outputbuf;
      }
      numBadMessages := 0;
      return false, false;
    }

    /** `process_message()`: `raised` tells whether a `MemoryError` escapes. */
    method ProcessMessage() returns (raised: bool)
      requires Sound(protocol) && numBadMessages <= MAX_BAD_MESSAGES
      modifies this
      ensures Processed(Snap(), raised) == Process(protocol, old(Snap()))
      ensures Session() == old(Session())
    {
      ghost var start := Snap();
      var stop := false;
      raised := false;
      while !stop
        invariant !stop ==> numBadMessages <= MAX_BAD_MESSAGES
        invariant !stop ==> Process(protocol, Snap()) == Process(protocol, start)
        invariant stop ==> Processed(Snap(), raised) == Process(protocol, start)
        invariant Session() == old(Session())
        decreases if stop then 0 else 1, |inputbuf|, MAX_BAD_MESSAGES - numBadMessages
      {
        ghost var before := Snap();
        stop, raised := ProcessRound();
        ProcessRoundStep(protocol, start, before, Snap(), stop, raised);
      }
    }

    /** `send_ping()`: the interval to ping again after, or `CANCEL_ALARMS`. */
    method SendPing() returns (r: int)
      modifies this
      ensures r == if old(canSendPings && alive) then pingIntervalS else CANCEL_ALARMS
      ensures outputbuf == if old(canSendPings && alive) then old(outputbuf) + [pingMessage] else old(outputbuf)
      ensures Snap() == old(Snap()).(outputbuf := outputbuf) && Session() == old(Session())
    {
      if canSendPings && alive {
        EnqueueMsgBytes(pingMessage, false);
        return pingIntervalS;
      }
      return CANCEL_ALARMS;
    }

    /** The peer id `msg_hello` leaves: the one already known, else the hello's. */
    function HelloPeerId(msg: Message): Option<string>
      reads this
    {
      if peerId.None? then msg.nodeId else peerId
    }

    /** The connections indexed under that peer id once `msg_hello` has indexed this one. */
    function HelloGroup(msg: Message): set<Connection>
      reads this, node
    {
      if peerId.None? && msg.nodeId.Some? then node.GetByNodeId(msg.nodeId) + {this} else node.GetByNodeId(peerId)
    }

    /** The start of `msg_hello`: an unknown peer id is taken from the hello and indexed in the pool. */
    method LearnPeerId(nodeId: Option<string>)
      modifies this, node
      ensures peerId == if old(peerId).None? then nodeId else old(peerId)
      ensures node.GetByNodeId(peerId) ==
        if old(peerId).None? && nodeId.Some? then old(node.GetByNodeId(nodeId)) + {this} else old(node.GetByNodeId(peerId))
      ensures Snap() == old(Snap())
      ensures canSendPings == old(canSendPings) && pongTimeoutAlarmId == old(pongTimeoutAlarmId)
      ensures isAuthenticated == old(isAuthenticated) && accountId == old(accountId)
      ensures node.numRetriesByIp == old(node.numRetriesByIp) && node.alarms == old(node.alarms)
      ensures node.nextAlarmId == old(node.nextAlarmId)
      ensures node.connectionsByNodeId ==
        if old(peerId).None? && nodeId.Some?
        then old(node.connectionsByNodeId)[nodeId.value := old(node.GetByNodeId(nodeId)) + {this}]
        else old(node.connectionsByNodeId)
    {
      if peerId.None? {
        peerId := nodeId;
        node.IndexConnNodeId(peerId, this);
      }
    }

    /**
     * `msg_hello(msg)`: the hello is received and the peer id learned; when more connections share the peer id,
     * every inbound one among them (this one included) is closed and nothing is sent; otherwise the ACK is enqueued.
     */
    method MsgHello(msg: Message)
      modifies this, node, HelloGroup(msg)
      ensures peerId == old(HelloPeerId(msg))
      ensures node.GetByNodeId(peerId) == old(HelloGroup(msg))
      ensures Snap() == old(Snap()).(state := old(state) + {HelloRecvd}, alive := alive, outputbuf := outputbuf)
      ensures canSendPings == old(canSendPings) && pongTimeoutAlarmId == old(pongTimeoutAlarmId)
      ensures isAuthenticated == old(isAuthenticated) && accountId == old(accountId)
      ensures node.numRetriesByIp == old(node.numRetriesByIp) && node.alarms == old(node.alarms)
      ensures node.nextAlarmId == old(node.nextAlarmId)
      ensures node.connectionsByNodeId ==
        if old(peerId).None? && msg.nodeId.Some?
        then old(node.connectionsByNodeId)[msg.nodeId.value := old(node.GetByNodeId(msg.nodeId)) + {this}]
        else old(node.connectionsByNodeId)
      ensures forall c :: c in old(HelloGroup(msg)) && c != this ==>
        c.Snap() == old(c.Snap()).(alive := c.alive) && c.Session() == old(c.Session())
      ensures var group := old(HelloGroup(msg));
        if |group| > 1 then
          && (forall c :: c in group ==> c.alive == (old(c.alive) && c.fromMe))
          && outputbuf == old(outputbuf)
        else
          && alive == old(alive)
          && outputbuf == Enqueued(old(outputbuf), old(alive), ackMessage, false)
    {
      state := state + {HelloRecvd};
      LearnPeerId(msg.nodeId);
      var nodeConnections := node.GetByNodeId(peerId);
      if |nodeConnections| > 1 {
        RejectDuplicates(nodeConnections);
        return;
      }
      AckHello();
    }

    /** The duplicate check of `msg_hello`: every inbound connection sharing the peer id is closed. */
    method RejectDuplicates(conns: set<Connection>)
      modifies conns
      ensures forall c :: c in conns ==> c.alive == (old(c.alive) && c.fromMe)
      ensures forall c :: c in conns ==> c.Snap() == old(c.Snap()).(alive := c.alive) && c.Session() == old(c.Session())
      ensures Snap() == old(Snap()).(alive := alive) && Session() == old(Session())
    {
      CloseInbound(conns);
      if this in conns {
        assert Snap() == old(Snap()).(alive := alive);
      }
    }

    /**
     * The end of `msg_hello` for a peer id no other connection shares: the ACK is enqueued, and the
     * `on_connection_established` called on an active connection changes nothing.
     */
    method AckHello()
      modifies this, node
      ensures Snap() == old(Snap()).(outputbuf := Enqueued(old(outputbuf), old(alive), ackMessage, false))
      ensures Session() == old(Session())
      ensures node.numRetriesByIp == old(node.numRetriesByIp) && node.alarms == old(node.alarms)
      ensures node.connectionsByNodeId == old(node.connectionsByNodeId) && node.nextAlarmId == old(node.nextAlarmId)
    {
      EnqueueMsgBytes(ackMessage, false);
      if IsActive() {
        OnConnectionEstablished();
      }
    }

    /** `msg_ack(msg)`: the same change as `AckHandler`. */
    method MsgAck(msg: Message)
      modifies this, node
      ensures AckHandler(msg, old(View(Snap()))) == Ok(View(Snap()))
      ensures inputbuf == old(inputbuf) && numBadMessages == old(numBadMessages) && Session() == old(Session())
      ensures node.numRetriesByIp == old(node.numRetriesByIp)
    {
      state := state + {HelloAckd};
      if IsActive() {
        OnConnectionEstablished();
      }
    }

    /** `msg_ping(msg)`: the same change as `PingHandler`. */
    method MsgPing(msg: Message)
      modifies this
      ensures PingHandler(pongMessage)(msg, old(View(Snap()))) == Ok(View(Snap()))
      ensures inputbuf == old(inputbuf) && numBadMessages == old(numBadMessages) && Session() == old(Session())
    {
      EnqueueMsgBytes(pongMessage, false);
    }

    /** `schedule_pong_timeout()`: registers the timeout only when none is pending. */
    method SchedulePongTimeout()
      requires node.Valid()
      modifies this, node
      ensures node.Valid()
      ensures old(pongTimeoutAlarmId).None? ==>
        && pongTimeoutAlarmId.Some?
        && pongTimeoutAlarmId.value !in old(node.alarms)
        && node.alarms == old(node.alarms) + {pongTimeoutAlarmId.value}
      ensures old(pongTimeoutAlarmId).Some? ==>
        pongTimeoutAlarmId == old(pongTimeoutAlarmId) && node.alarms == old(node.alarms)
      ensures Snap() == old(Snap())
      ensures peerId == old(peerId) && isAuthenticated == old(isAuthenticated) && accountId == old(accountId)
      ensures node.connectionsByNodeId == old(node.connectionsByNodeId)
    {
      if pongTimeoutAlarmId.None? {
        var id := node.RegisterAlarm();
        pongTimeoutAlarmId := Some(id);
      }
    }

    /** `cancel_pong_timeout()`: unregisters a pending timeout; with none pending it changes nothing. */
    method CancelPongTimeout()
      requires node.Valid()
      modifies this, node
      ensures node.Valid()
      ensures pongTimeoutAlarmId.None?
      ensures node.alarms == if old(pongTimeoutAlarmId).Some? then old(node.alarms) - {old(pongTimeoutAlarmId).value}
                             else old(node.alarms)
      ensures Snap() == old(Snap())
      ensures peerId == old(peerId) && isAuthenticated == old(isAuthenticated) && accountId == old(accountId)
      ensures node.connectionsByNodeId == old(node.connectionsByNodeId)
    {
      if pongTimeoutAlarmId.Some? {
        node.UnregisterAlarm(pongTimeoutAlarmId.value);
        pongTimeoutAlarmId := None;
      }
    }

    /** `_pong_msg_timeout()`: the timeout fired, the connection is closed. */
    method PongMsgTimeout()
      modifies this
      ensures Snap() == Closed(old(Snap())) && pongTimeoutAlarmId.None?
      ensures peerId == old(peerId) && isAuthenticated == old(isAuthenticated) && accountId == old(accountId)
    {
      MarkForClose();
      pongTimeoutAlarmId := None;
    }

    /** `on_connection_authenticated(peer_id, connection_type, account_id)`. */
    method OnConnectionAuthenticated(newPeerId: string, newAccountId: Option<string>)
      modifies this
      ensures peerId == Some(newPeerId) && accountId == newAccountId && isAuthenticated
      ensures Snap() == old(Snap()) && pongTimeoutAlarmId == old(pongTimeoutAlarmId)
    {
      peerId := Some(newPeerId);
      accountId := newAccountId;
      isAuthenticated := true;
    }

    /**
     * `set_account_id(account_id)`: an authenticated connection refuses a different account id and keeps its own;
     * an unauthenticated one takes the new one.
     */
    method SetAccountId(newAccountId: Option<string>) returns (err: Option<AuthError>)
      modifies this
      ensures err.Some? <==> old(isAuthenticated) && newAccountId != old(accountId)
      ensures err.Some? ==> err.value == ConnectionAuthenticationError(newAccountId, old(accountId))
      ensures accountId == if old(isAuthenticated) then old(accountId) else newAccountId
      ensures Snap() == old(Snap()) && isAuthenticated == old(isAuthenticated) && peerId == old(peerId)
    {
      if isAuthenticated && newAccountId != accountId {
        return Some(ConnectionAuthenticationError(newAccountId, accountId));
      } else if !isAuthenticated {
        accountId := newAccountId;
      }
      return None;
    }
  }
}
