/**
 * The version-9 converter of the BDN performance statistics message. Past the breakpoint, the current message holds
 * two u32 transaction counters, a u16 memory figure and three u32 block statistics where the version-9 message holds
 * only two u16 counters. Converting down saturates the counters to u16 and drops fields; converting up widens the
 * counters and inserts the new fields as zeros.
 */
module BdnStatsConverters {
  import opened Wrappers
  import opened Bytes
  import opened BloxrouteLayout
  import opened MessageTypes

  /** `_BASE_LENGTH`: the common message header. */
  const BASE_LENGTH: nat := HEADER_LENGTH

  /** `_BREAKPOINT`: the header, two doubles and two u16s that both versions share. */
  const BREAKPOINT: nat := BASE_LENGTH + 2 * DOUBLE_SIZE_IN_BYTES + 2 * UL_SHORT_SIZE_IN_BYTES

  /** `_OLD_MESSAGE_LEN`: `BdnPerformanceStatsMessageV9.MSG_SIZE`. */
  const OLD_MESSAGE_LEN: nat

  /** `_NEW_MESSAGE_LEN`: `BdnPerformanceStatsMessage.MSG_SIZE`. */
  const NEW_MESSAGE_LEN: nat

  /** `_LENGTH_DIFFERENCE`: two counters each two bytes wider, a u16 and three u32s more. */
  const LENGTH_DIFFERENCE: nat :=
    2 * (UL_INT_SIZE_IN_BYTES - UL_SHORT_SIZE_IN_BYTES) + UL_SHORT_SIZE_IN_BYTES + 3 * UL_INT_SIZE_IN_BYTES

  /** The fields only the current version has: the u16 memory figure and the three u32 block statistics. */
  const NEW_STATS_LEN: nat := UL_SHORT_SIZE_IN_BYTES + 3 * UL_INT_SIZE_IN_BYTES

  /** Where the downward conversion starts copying the tail: after the two u32 counters and the u16 only. */
  const AS_WRITTEN_TAIL_OFFSET: nat := BREAKPOINT + 2 * UL_INT_SIZE_IN_BYTES + UL_SHORT_SIZE_IN_BYTES

  /** Where the tail of a current message starts: after the counters and all the new fields. */
  const TAIL_OFFSET: nat := BREAKPOINT + 2 * UL_INT_SIZE_IN_BYTES + NEW_STATS_LEN

  /** A message as the converter sees it: its type, the payload length of its header and its raw bytes. */
  datatype InternalMessage = InternalMessage(msgType: MessageType, payloadLen: int, rawBytes: seq<byte>)

  /** `ValueError` for a message of another type; `struct.error` for an unpack or pack past the end. */
  datatype ConvError = UnexpectedType(msgType: MessageType) | Truncated(StructError)

  /** `min(v, UNSIGNED_SHORT_MAX_VALUE)`. */
  function Saturate(v: nat): nat
  {
    if v < UNSIGNED_SHORT_MAX_VALUE then v else UNSIGNED_SHORT_MAX_VALUE
  }

  /**
   * The version-9 form of a current message, its tail copied from `tailFrom`: the shared prefix, the two counters
   * saturated to u16, then the bytes from `tailFrom` on; the payload shrinks by the length difference.
   */
  function OlderVersion(m: InternalMessage, tailFrom: nat): Result<InternalMessage, ConvError>
  {
    var raw := m.rawBytes;
    if m.msgType != BdnPerformanceStats then Err(UnexpectedType(m.msgType))
    else if |raw| < BREAKPOINT + 2 * UL_INT_SIZE_IN_BYTES || OLD_MESSAGE_LEN < BREAKPOINT + 2 * UL_SHORT_SIZE_IN_BYTES
    then Err(Truncated(StructError))
    else
      Ok(InternalMessage(m.msgType, m.payloadLen - LENGTH_DIFFERENCE,
        raw[..BREAKPOINT]
        + LE(Saturate(U32At(raw, BREAKPOINT)), UL_SHORT_SIZE_IN_BYTES)
        + LE(Saturate(U32At(raw, BREAKPOINT + UL_INT_SIZE_IN_BYTES)), UL_SHORT_SIZE_IN_BYTES)
        + PySlice(raw, tailFrom, |raw|)))
  }

  /**
   * The current form of a version-9 message: the shared prefix, the two counters widened to u32, the new fields
   * zeroed, then the old tail; the payload grows by the length difference.
   */
  function NewerVersion(m: InternalMessage): Result<InternalMessage, ConvError>
  {
    var raw := m.rawBytes;
    if m.msgType != BdnPerformanceStats then Err(UnexpectedType(m.msgType))
    else if |raw| < BREAKPOINT + 2 * UL_SHORT_SIZE_IN_BYTES || NEW_MESSAGE_LEN < TAIL_OFFSET
    then Err(Truncated(StructError))
    else
      Ok(InternalMessage(m.msgType, m.payloadLen + LENGTH_DIFFERENCE,
        raw[..BREAKPOINT]
        + LE(U16At(raw, BREAKPOINT), UL_INT_SIZE_IN_BYTES)
        + LE(U16At(raw, BREAKPOINT + UL_SHORT_SIZE_IN_BYTES), UL_INT_SIZE_IN_BYTES)
        + Zeros(NEW_STATS_LEN)
        + raw[BREAKPOINT + 2 * UL_SHORT_SIZE_IN_BYTES..]))
  }

  /** `struct.pack_into(fmt, buf, off, ...)` of already packed bytes: raises unless they fit. */
  method PackChecked(bytes: seq<byte>, off: nat, data: seq<byte>) returns (r: Result<seq<byte>, ConvError>)
    ensures off + |data| <= |bytes| ==> r == Ok(WriteAt(bytes, off, data))
    ensures off + |data| > |bytes| ==> r == Err(Truncated(StructError))
  {
    if off + |data| > |bytes| {
      return Err(Truncated(StructError));
    }
    r := Ok(WriteAt(bytes, off, data));
  }

  /** `convert_to_older_version(msg)` with the tail copied from `tailFrom`. */
  method ConvertToOlder(msg: InternalMessage, tailFrom: nat) returns (r: Result<InternalMessage, ConvError>)
    ensures r == OlderVersion(msg, tailFrom)
  {
    if msg.msgType != BdnPerformanceStats {
      return Err(UnexpectedType(msg.msgType));
    }
    var raw := msg.rawBytes;
    var oldPayloadLen := msg.payloadLen - LENGTH_DIFFERENCE;
    var bytes := Zeros(OLD_MESSAGE_LEN);
    bytes := AssignSlice(bytes, 0, BREAKPOINT, PySlice(raw, 0, BREAKPOINT));
    if BREAKPOINT + UL_INT_SIZE_IN_BYTES > |raw| {
      return Err(Truncated(StructError));
    }
    assert bytes[..BREAKPOINT] == raw[..BREAKPOINT];
    var fromNode := Saturate(U32At(raw, BREAKPOINT));
    var packed := PackChecked(bytes, BREAKPOINT, LE(fromNode, UL_SHORT_SIZE_IN_BYTES));
    if packed.Err? {
      return Err(packed.error);
    }
    WriteAtPrefix(bytes, BREAKPOINT, LE(fromNode, UL_SHORT_SIZE_IN_BYTES));
    bytes := packed.value;
    if BREAKPOINT + 2 * UL_INT_SIZE_IN_BYTES > |raw| {
      return Err(Truncated(StructError));
    }
    var fromBdn := Saturate(U32At(raw, BREAKPOINT + UL_INT_SIZE_IN_BYTES));
    packed := PackChecked(bytes, BREAKPOINT + UL_SHORT_SIZE_IN_BYTES, LE(fromBdn, UL_SHORT_SIZE_IN_BYTES));
    if packed.Err? {
      return Err(packed.error);
    }
    WriteAtPrefix(bytes, BREAKPOINT + UL_SHORT_SIZE_IN_BYTES, LE(fromBdn, UL_SHORT_SIZE_IN_BYTES));
    bytes := packed.value;
    bytes := AssignSlice(bytes, BREAKPOINT + 2 * UL_SHORT_SIZE_IN_BYTES, |bytes|, PySlice(raw, tailFrom, |raw|));
    r := Ok(InternalMessage(msg.msgType, oldPayloadLen, bytes));
  }

  /** `convert_to_older_version(msg)` as written: the tail starts after the counters and the u16 memory figure. */
  method ConvertToOlderVersion(msg: InternalMessage) returns (r: Result<InternalMessage, ConvError>)
    ensures r == OlderVersion(msg, AS_WRITTEN_TAIL_OFFSET)
  {
    r := ConvertToOlder(msg, AS_WRITTEN_TAIL_OFFSET);
  }

  /** `convert_to_older_version(msg)` with the tail taken after all the fields the current version added. */
  method ConvertToOlderVersionCorrected(msg: InternalMessage) returns (r: Result<InternalMessage, ConvError>)
    ensures r == OlderVersion(msg, TAIL_OFFSET)
  {
    r := ConvertToOlder(msg, TAIL_OFFSET);
  }

  /**
   * One `struct.pack_into` of the upward conversion at the advancing `offset`, followed by `offset += width`:
   * `written` is what the buffer holds before `offset`.
   */
  method PackNext(bytes: seq<byte>, offset: nat, ghost written: seq<byte>, data: seq<byte>)
    returns (r: Result<(seq<byte>, nat), ConvError>)
    requires offset == |written| <= |bytes| && bytes[..offset] == written
    ensures offset + |data| <= |bytes| ==> r.Ok?
    ensures offset + |data| > |bytes| ==> r == Err(Truncated(StructError))
    ensures r.Ok? ==> |r.value.0| == |bytes| && r.value.1 == offset + |data| && r.value.0[..r.value.1] == written + data
  {
    if offset + |data| > |bytes| {
      return Err(Truncated(StructError));
    }
    WriteAtPrefix(bytes, offset, data);
    r := Ok((WriteAt(bytes, offset, data), offset + |data|));
  }

  /** `convert_from_older_version(msg)`. */
  method ConvertFromOlderVersion(msg: InternalMessage) returns (r: Result<InternalMessage, ConvError>)
    ensures r == NewerVersion(msg)
  {
    if msg.msgType != BdnPerformanceStats {
      return Err(UnexpectedType(msg.msgType));
    }
    var raw := msg.rawBytes;
    var newPayloadLen := msg.payloadLen + LENGTH_DIFFERENCE;
    var bytes := Zeros(NEW_MESSAGE_LEN);
    bytes := AssignSlice(bytes, 0, BREAKPOINT, PySlice(raw, 0, BREAKPOINT));
    var defaultNewStats := 0;
    var offset := BREAKPOINT;
    if BREAKPOINT + UL_SHORT_SIZE_IN_BYTES > |raw| {
      return Err(Truncated(StructError));
    }
    var fromNode := U16At(raw, BREAKPOINT);
    if BREAKPOINT + 2 * UL_SHORT_SIZE_IN_BYTES > |raw| {
      return Err(Truncated(StructError));
    }
    var fromBdn := U16At(raw, BREAKPOINT + UL_SHORT_SIZE_IN_BYTES);
    assert |bytes| >= BREAKPOINT && (|bytes| < TAIL_OFFSET <==> NEW_MESSAGE_LEN < TAIL_OFFSET);
    assert bytes[..BREAKPOINT] == raw[..BREAKPOINT];
    ghost var written := raw[..BREAKPOINT];
    var packed := PackNext(bytes, offset, written, LE(fromNode, UL_INT_SIZE_IN_BYTES));
    if packed.Err? {
      return Err(packed.error);
    }
    bytes, offset, written := packed.value.0, packed.value.1, written + LE(fromNode, UL_INT_SIZE_IN_BYTES);
    packed := PackNext(bytes, offset, written, LE(fromBdn, UL_INT_SIZE_IN_BYTES));
    if packed.Err? {
      return Err(packed.error);
    }
    bytes, offset, written := packed.value.0, packed.value.1, written + LE(fromBdn, UL_INT_SIZE_IN_BYTES);
    ghost var counters := written;
    packed := PackNext(bytes, offset, written, LE(defaultNewStats, UL_SHORT_SIZE_IN_BYTES));
    if packed.Err? {
      return Err(packed.error);
    }
    bytes, offset, written := packed.value.0, packed.value.1, written + LE(defaultNewStats, UL_SHORT_SIZE_IN_BYTES);
    packed := PackNext(bytes, offset, written, LE(defaultNewStats, UL_INT_SIZE_IN_BYTES));
    if packed.Err? {
      return Err(packed.error);
    }
    bytes, offset, written := packed.value.0, packed.value.1, written + LE(defaultNewStats, UL_INT_SIZE_IN_BYTES);
    packed := PackNext(bytes, offset, written, LE(defaultNewStats, UL_INT_SIZE_IN_BYTES));
    if packed.Err? {
      return Err(packed.error);
    }
    bytes, offset, written := packed.value.0, packed.value.1, written + LE(defaultNewStats, UL_INT_SIZE_IN_BYTES);
    packed := PackNext(bytes, offset, written, LE(defaultNewStats, UL_INT_SIZE_IN_BYTES));
    if packed.Err? {
      return Err(packed.error);
    }
    bytes, offset, written := packed.value.0, packed.value.1, written + LE(defaultNewStats, UL_INT_SIZE_IN_BYTES);
    NewFieldsZero(counters, written);
    bytes := AssignSlice(bytes, offset, |bytes|, PySlice(raw, BREAKPOINT + 2 * UL_SHORT_SIZE_IN_BYTES, |raw|));
    r := Ok(InternalMessage(msg.msgType, newPayloadLen, bytes));
  }

  /** The u16 and the three u32s packed after the counters, all zero, are the zeroed new fields. */
  lemma NewFieldsZero(counters: seq<byte>, written: seq<byte>)
    requires written == counters + LE(0, UL_SHORT_SIZE_IN_BYTES) + LE(0, UL_INT_SIZE_IN_BYTES)
      + LE(0, UL_INT_SIZE_IN_BYTES) + LE(0, UL_INT_SIZE_IN_BYTES)
    ensures written == counters + Zeros(NEW_STATS_LEN)
  {
    LEZero(UL_SHORT_SIZE_IN_BYTES);
    LEZero(UL_INT_SIZE_IN_BYTES);
    assert Zeros(UL_SHORT_SIZE_IN_BYTES) + Zeros(UL_INT_SIZE_IN_BYTES) + Zeros(UL_INT_SIZE_IN_BYTES)
      + Zeros(UL_INT_SIZE_IN_BYTES) == Zeros(NEW_STATS_LEN);
  }

  /** `get_message_size_change_to_older_version()`. */
  function GetMessageSizeChangeToOlderVersion(): (d: int)
    ensures d == -18
  {
    0 - LENGTH_DIFFERENCE
  }

  /** `get_message_size_change_from_older_version()`. */
  function GetMessageSizeChangeFromOlderVersion(): (d: int)
    ensures d == 18
  {
    LENGTH_DIFFERENCE
  }

  /**
   * When each direction raises: `ValueError` exactly for another message type, and `struct.error` when the input is
   * too short for the counters or the fresh buffer too short for the packed fields.
   */
  lemma ConversionErrors(m: InternalMessage, tailFrom: nat)
    ensures OlderVersion(m, tailFrom) == Err(UnexpectedType(m.msgType)) <==> m.msgType != BdnPerformanceStats
    ensures NewerVersion(m) == Err(UnexpectedType(m.msgType)) <==> m.msgType != BdnPerformanceStats
    ensures OlderVersion(m, tailFrom).Ok? <==>
      m.msgType == BdnPerformanceStats && |m.rawBytes| >= BREAKPOINT + 2 * UL_INT_SIZE_IN_BYTES
      && OLD_MESSAGE_LEN >= BREAKPOINT + 2 * UL_SHORT_SIZE_IN_BYTES
    ensures NewerVersion(m).Ok? <==>
      m.msgType == BdnPerformanceStats && |m.rawBytes| >= BREAKPOINT + 2 * UL_SHORT_SIZE_IN_BYTES
      && NEW_MESSAGE_LEN >= TAIL_OFFSET
  {
  }

  /**
   * Converting up keeps the prefix, widens both counters without changing them, zeroes the new fields and moves the
   * old tail after them; bytes and payload both grow by the advertised size change.
   */
  lemma NewerVersionLayout(m: InternalMessage)
    requires NewerVersion(m).Ok?
    ensures var raw := m.rawBytes; var out := NewerVersion(m).value;
      && out.msgType == m.msgType
      && out.payloadLen == m.payloadLen + GetMessageSizeChangeFromOlderVersion()
      && |out.rawBytes| == |raw| + GetMessageSizeChangeFromOlderVersion()
      && out.rawBytes[..BREAKPOINT] == raw[..BREAKPOINT]
      && U32At(out.rawBytes, BREAKPOINT) == U16At(raw, BREAKPOINT)
      && U32At(out.rawBytes, BREAKPOINT + UL_INT_SIZE_IN_BYTES) == U16At(raw, BREAKPOINT + UL_SHORT_SIZE_IN_BYTES)
      && out.rawBytes[BREAKPOINT + 2 * UL_INT_SIZE_IN_BYTES..TAIL_OFFSET] == Zeros(NEW_STATS_LEN)
      && out.rawBytes[TAIL_OFFSET..] == raw[BREAKPOINT + 2 * UL_SHORT_SIZE_IN_BYTES..]
  {
    var raw := m.rawBytes;
    var a := U16At(raw, BREAKPOINT);
    var b := U16At(raw, BREAKPOINT + UL_SHORT_SIZE_IN_BYTES);
    var pre := raw[..BREAKPOINT];
    var post := Zeros(NEW_STATS_LEN) + raw[BREAKPOINT + 2 * UL_SHORT_SIZE_IN_BYTES..];
    var out := NewerVersion(m).value.rawBytes;
    assert out == pre + LE(a, UL_INT_SIZE_IN_BYTES) + (LE(b, UL_INT_SIZE_IN_BYTES) + post);
    assert out == pre + LE(a, UL_INT_SIZE_IN_BYTES) + LE(b, UL_INT_SIZE_IN_BYTES) + post;
    U32AtBetween(pre, a, LE(b, UL_INT_SIZE_IN_BYTES) + post);
    U32AtBetween(pre + LE(a, UL_INT_SIZE_IN_BYTES), b, post);
  }

  /**
   * Converting down keeps the prefix, saturates both counters to u16 and copies the tail from `tailFrom`; the
   * payload shrinks by the advertised size change, the bytes by the distance from the end of the u16 counters to
   * `tailFrom` less the four bytes the counters lose.
   */
  lemma OlderVersionLayout(m: InternalMessage, tailFrom: nat)
    requires OlderVersion(m, tailFrom).Ok?
    requires BREAKPOINT + 2 * UL_INT_SIZE_IN_BYTES <= tailFrom <= |m.rawBytes|
    ensures var raw := m.rawBytes; var out := OlderVersion(m, tailFrom).value;
      && out.msgType == m.msgType
      && out.payloadLen == m.payloadLen + GetMessageSizeChangeToOlderVersion()
      && |out.rawBytes| == |raw| - (tailFrom - (BREAKPOINT + 2 * UL_SHORT_SIZE_IN_BYTES))
      && out.rawBytes[..BREAKPOINT] == raw[..BREAKPOINT]
      && U16At(out.rawBytes, BREAKPOINT) == Saturate(U32At(raw, BREAKPOINT))
      && U16At(out.rawBytes, BREAKPOINT + UL_SHORT_SIZE_IN_BYTES) ==
         Saturate(U32At(raw, BREAKPOINT + UL_INT_SIZE_IN_BYTES))
      && out.rawBytes[BREAKPOINT + 2 * UL_SHORT_SIZE_IN_BYTES..] == raw[tailFrom..]
  {
    var raw := m.rawBytes;
    var a := Saturate(U32At(raw, BREAKPOINT));
    var b := Saturate(U32At(raw, BREAKPOINT + UL_INT_SIZE_IN_BYTES));
    var pre := raw[..BREAKPOINT];
    var post := raw[tailFrom..];
    var out := OlderVersion(m, tailFrom).value.rawBytes;
    assert out == pre + LE(a, UL_SHORT_SIZE_IN_BYTES) + (LE(b, UL_SHORT_SIZE_IN_BYTES) + post);
    assert out == pre + LE(a, UL_SHORT_SIZE_IN_BYTES) + LE(b, UL_SHORT_SIZE_IN_BYTES) + post;
    U16AtBetween(pre, a, LE(b, UL_SHORT_SIZE_IN_BYTES) + post);
    U16AtBetween(pre + LE(a, UL_SHORT_SIZE_IN_BYTES), b, post);
  }

  /** Converting down from the intended tail offset shrinks the bytes by the advertised size change. */
  lemma SizeChangeCorrected(m: InternalMessage)
    requires OlderVersion(m, TAIL_OFFSET).Ok? && TAIL_OFFSET <= |m.rawBytes|
    ensures |OlderVersion(m, TAIL_OFFSET).value.rawBytes| == |m.rawBytes| + GetMessageSizeChangeToOlderVersion()
  {
    OlderVersionLayout(m, TAIL_OFFSET);
  }

  /**
   * Converting down as written shrinks the bytes by only 6 while the payload length shrinks by 18: the header of the
   * result disagrees with its bytes.
   */
  lemma SizeChangeAsWritten(m: InternalMessage)
    requires OlderVersion(m, AS_WRITTEN_TAIL_OFFSET).Ok? && AS_WRITTEN_TAIL_OFFSET <= |m.rawBytes|
    ensures var out := OlderVersion(m, AS_WRITTEN_TAIL_OFFSET).value;
      && |out.rawBytes| == |m.rawBytes| - 6
      && |out.rawBytes| != |m.rawBytes| + GetMessageSizeChangeToOlderVersion()
      && out.payloadLen == m.payloadLen + GetMessageSizeChangeToOlderVersion()
  {
    OlderVersionLayout(m, AS_WRITTEN_TAIL_OFFSET);
  }

  /** The current form of a version-9 message, as `NewerVersion` builds it, read back field by field. */
  lemma UpThenDownFields(m: InternalMessage)
    requires NewerVersion(m).Ok?
    ensures var n := NewerVersion(m).value.rawBytes; var raw := m.rawBytes;
      && Saturate(U32At(n, BREAKPOINT)) == U16At(raw, BREAKPOINT)
      && Saturate(U32At(n, BREAKPOINT + UL_INT_SIZE_IN_BYTES)) == U16At(raw, BREAKPOINT + UL_SHORT_SIZE_IN_BYTES)
      && LE(U16At(raw, BREAKPOINT), UL_SHORT_SIZE_IN_BYTES) == raw[BREAKPOINT..BREAKPOINT + UL_SHORT_SIZE_IN_BYTES]
      && LE(U16At(raw, BREAKPOINT + UL_SHORT_SIZE_IN_BYTES), UL_SHORT_SIZE_IN_BYTES) ==
         raw[BREAKPOINT + UL_SHORT_SIZE_IN_BYTES..BREAKPOINT + 2 * UL_SHORT_SIZE_IN_BYTES]
  {
    var n := NewerVersion(m).value.rawBytes;
    NewerVersionLayout(m);
    var a := U16At(m.rawBytes, BREAKPOINT);
    var b := U16At(m.rawBytes, BREAKPOINT + UL_SHORT_SIZE_IN_BYTES);
    assert U32At(n, BREAKPOINT) == a && Saturate(a) == a;
    assert U32At(n, BREAKPOINT + UL_INT_SIZE_IN_BYTES) == b && Saturate(b) == b;
    U16AtPacks(m.rawBytes, BREAKPOINT);
    U16AtPacks(m.rawBytes, BREAKPOINT + UL_SHORT_SIZE_IN_BYTES);
  }

  /**
   * Old to new to old with the tail copied from any offset past the u32 counters: the prefix, both counters and the
   * payload length come back, followed by the current form's bytes from that offset.
   */
  lemma DownAfterUp(m: InternalMessage, tailFrom: nat)
    requires NewerVersion(m).Ok? && OLD_MESSAGE_LEN >= BREAKPOINT + 2 * UL_SHORT_SIZE_IN_BYTES
    requires BREAKPOINT + 2 * UL_INT_SIZE_IN_BYTES <= tailFrom <= |NewerVersion(m).value.rawBytes|
    ensures var n := NewerVersion(m).value; var k := BREAKPOINT + 2 * UL_SHORT_SIZE_IN_BYTES;
      OlderVersion(n, tailFrom) ==
        Ok(InternalMessage(m.msgType, m.payloadLen, m.rawBytes[..k] + n.rawBytes[tailFrom..]))
  {
    var raw := m.rawBytes;
    var k := BREAKPOINT + 2 * UL_SHORT_SIZE_IN_BYTES;
    var n := NewerVersion(m).value;
    UpThenDownFields(m);
    NewerVersionLayout(m);
    assert raw[..k] == raw[..BREAKPOINT] + raw[BREAKPOINT..BREAKPOINT + UL_SHORT_SIZE_IN_BYTES]
      + raw[BREAKPOINT + UL_SHORT_SIZE_IN_BYTES..k];
  }

  /**
   * Old to new to old as written: the prefix, both counters and the payload length come back, but the 12 zeroed
   * block-statistics bytes stay in front of the old tail.
   */
  lemma RoundTripAsWritten(m: InternalMessage)
    requires NewerVersion(m).Ok? && OLD_MESSAGE_LEN >= BREAKPOINT + 2 * UL_SHORT_SIZE_IN_BYTES
    ensures var raw := m.rawBytes; var k := BREAKPOINT + 2 * UL_SHORT_SIZE_IN_BYTES;
      OlderVersion(NewerVersion(m).value, AS_WRITTEN_TAIL_OFFSET) ==
        Ok(InternalMessage(m.msgType, m.payloadLen, raw[..k] + Zeros(3 * UL_INT_SIZE_IN_BYTES) + raw[k..]))
    ensures OlderVersion(NewerVersion(m).value, AS_WRITTEN_TAIL_OFFSET).value.rawBytes != m.rawBytes
  {
    var raw := m.rawBytes;
    var k := BREAKPOINT + 2 * UL_SHORT_SIZE_IN_BYTES;
    var n := NewerVersion(m).value.rawBytes;
    NewerVersionLayout(m);
    DownAfterUp(m, AS_WRITTEN_TAIL_OFFSET);
    var z := n[BREAKPOINT + 2 * UL_INT_SIZE_IN_BYTES..TAIL_OFFSET];
    assert n[AS_WRITTEN_TAIL_OFFSET..] == z[UL_SHORT_SIZE_IN_BYTES..] + n[TAIL_OFFSET..];
    assert z[UL_SHORT_SIZE_IN_BYTES..] == Zeros(3 * UL_INT_SIZE_IN_BYTES);
    assert raw[..k] + n[AS_WRITTEN_TAIL_OFFSET..] == raw[..k] + Zeros(3 * UL_INT_SIZE_IN_BYTES) + raw[k..];
  }

  /** Old to new to old with the tail taken from the intended offset gives the message back unchanged. */
  lemma RoundTripCorrected(m: InternalMessage)
    requires NewerVersion(m).Ok? && OLD_MESSAGE_LEN >= BREAKPOINT + 2 * UL_SHORT_SIZE_IN_BYTES
    ensures OlderVersion(NewerVersion(m).value, TAIL_OFFSET) == Ok(m)
  {
    var k := BREAKPOINT + 2 * UL_SHORT_SIZE_IN_BYTES;
    NewerVersionLayout(m);
    DownAfterUp(m, TAIL_OFFSET);
    assert m.rawBytes == m.rawBytes[..k] + m.rawBytes[k..];
  }
}
