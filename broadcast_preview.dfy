/**
 * The broadcast header preview of the version-8 message factory: without consuming the input buffer, it reads the
 * block hash, network number and source id that follow the common header of a broadcast message, and builds the
 * message id from the hash, the network number and the BLOCK broadcast type.
 */
module BroadcastPreviews {
  import opened Wrappers
  import opened Bytes
  import opened Transactions
  import opened BloxrouteLayout

  /** The hash, network number and source id that open a broadcast payload. */
  const BROADCAST_ID_FIELDS_LEN: nat := SHA256_HASH_LEN + NETWORK_NUM_LEN + NODE_ID_SIZE_IN_BYTES

  /** The width of the `"<4s"` format the broadcast type is packed with. */
  const PACKED_TYPE_LEN: nat := 4

  /** `BroadcastMessageType.BLOCK.value` encoded with the default text encoding. */
  const BLOCK_TYPE_VALUE: seq<byte>

  /** The broadcast types; the preview only ever reports BLOCK. */
  datatype BroadcastMessageType = Block

  /** `BroadcastMessagePreview`; the source id is kept as the 16 bytes it is decoded from. */
  datatype BroadcastMessagePreview = BroadcastMessagePreview(
    isFullHeader: bool,
    blockHash: Option<seq<byte>>,
    broadcastType: Option<BroadcastMessageType>,
    messageId: Option<seq<byte>>,
    networkNum: Option<nat>,
    sourceId: Option<seq<byte>>,
    payloadLength: Option<nat>)

  /** The preview of a buffer that does not yet hold a broadcast header. */
  const NOT_FULL: BroadcastMessagePreview := BroadcastMessagePreview(false, None, None, None, None, None, None)

  /** `struct.pack("<4s", s)`: the first four bytes, zero-padded when s is shorter. */
  function Pack4s(s: seq<byte>): (r: seq<byte>)
    ensures |r| == PACKED_TYPE_LEN
  {
    if |s| >= PACKED_TYPE_LEN then s[..PACKED_TYPE_LEN] else s + Zeros(PACKED_TYPE_LEN - |s|)
  }

  /**
   * The broadcast type bytes of the message id: the packed BLOCK value in a zeroed `bytearray(BROADCAST_TYPE_LEN)`;
   * `pack_into` raises when that array is narrower than the format.
   */
  function BroadcastTypeBytes(): (r: Result<seq<byte>, StructError>)
    ensures r.Ok? <==> BROADCAST_TYPE_LEN >= PACKED_TYPE_LEN
    ensures r.Ok? ==> |r.value| == BROADCAST_TYPE_LEN && r.value[..PACKED_TYPE_LEN] == Pack4s(BLOCK_TYPE_VALUE)
    ensures r.Ok? ==> forall i :: PACKED_TYPE_LEN <= i < BROADCAST_TYPE_LEN ==> r.value[i] == 0
  {
    if BROADCAST_TYPE_LEN < PACKED_TYPE_LEN then Err(StructError)
    else Ok(Pack4s(BLOCK_TYPE_VALUE) + Zeros(BROADCAST_TYPE_LEN - PACKED_TYPE_LEN))
  }

  /**
   * `get_broadcast_message_preview(input_buffer)`, where `headerPayloadLength` is the payload length the common
   * header preview reports. The fields are cut from the first `BROADCAST_HEADER_LENGTH` bytes; the unpacks raise
   * when the broadcast fields are too narrow to hold them.
   */
  function GetBroadcastMessagePreview(input: seq<byte>, headerPayloadLength: nat)
    : (r: Result<BroadcastMessagePreview, StructError>)
    ensures |input| < BROADCAST_HEADER_LENGTH ==> r == Ok(NOT_FULL)
    ensures r.Ok? && !r.value.isFullHeader ==> |input| < BROADCAST_HEADER_LENGTH
    ensures r.Err? <==>
      |input| >= BROADCAST_HEADER_LENGTH &&
      (BROADCAST_FIELDS_LEN < BROADCAST_ID_FIELDS_LEN || BROADCAST_TYPE_LEN < PACKED_TYPE_LEN)
  {
    if |input| < BROADCAST_HEADER_LENGTH then Ok(NOT_FULL)
    else
      var header := input[..BROADCAST_HEADER_LENGTH];
      var off := HEADER_LENGTH;
      var blockHash := PySlice(header, off, off + SHA256_HASH_LEN);
      var hashWithNetworkNum := PySlice(header, off, off + SHA256_HASH_LEN + NETWORK_NUM_LEN);
      var networkNumBytes := PySlice(header, off + SHA256_HASH_LEN, off + SHA256_HASH_LEN + NETWORK_NUM_LEN);
      var sourceIdBytes := PySlice(header, off + SHA256_HASH_LEN + NETWORK_NUM_LEN, off + BROADCAST_ID_FIELDS_LEN);
      if |networkNumBytes| < NETWORK_NUM_LEN || |sourceIdBytes| < NODE_ID_SIZE_IN_BYTES then Err(StructError)
      else
        match BroadcastTypeBytes()
        case Err(e) => Err(e)
        case Ok(typeBytes) =>
          Ok(BroadcastMessagePreview(true, Some(blockHash), Some(Block), Some(hashWithNetworkNum + typeBytes),
                                     Some(FromLE(networkNumBytes)), Some(sourceIdBytes), Some(headerPayloadLength)))
  }

  /**
   * A full preview of `input`: the 32 bytes after the common header as the hash, the `<L` after them as the network
   * number, the next 16 bytes as the source id, BLOCK as the type, hash, network number bytes and type bytes as the
   * message id, and the header's payload length.
   */
  ghost predicate FullPreviewOf(input: seq<byte>, p: BroadcastMessagePreview, headerPayloadLength: nat)
  {
    var off := HEADER_LENGTH;
    var netOff := off + SHA256_HASH_LEN;
    var srcOff := netOff + NETWORK_NUM_LEN;
    && off + BROADCAST_ID_FIELDS_LEN <= |input|
    && BroadcastTypeBytes().Ok?
    && p.blockHash == Some(input[off..netOff])
    && p.networkNum.Some? && p.networkNum.value < Pow256(NETWORK_NUM_LEN)
    && LE(p.networkNum.value, NETWORK_NUM_LEN) == input[netOff..srcOff]
    && p.sourceId == Some(input[srcOff..off + BROADCAST_ID_FIELDS_LEN])
    && p.broadcastType == Some(Block)
    && p.messageId == Some(input[off..srcOff] + BroadcastTypeBytes().value)
    && p.payloadLength == Some(headerPayloadLength)
  }

  /** The slices the preview cuts from the header are the input's bytes at the same offsets. */
  lemma PreviewSlices(input: seq<byte>)
    requires |input| >= BROADCAST_HEADER_LENGTH && BROADCAST_FIELDS_LEN >= BROADCAST_ID_FIELDS_LEN
    ensures var header := input[..BROADCAST_HEADER_LENGTH];
      var off := HEADER_LENGTH; var netOff := off + SHA256_HASH_LEN; var srcOff := netOff + NETWORK_NUM_LEN;
      && PySlice(header, off, netOff) == input[off..netOff]
      && PySlice(header, off, srcOff) == input[off..srcOff]
      && PySlice(header, netOff, srcOff) == input[netOff..srcOff]
      && PySlice(header, srcOff, off + BROADCAST_ID_FIELDS_LEN) == input[srcOff..off + BROADCAST_ID_FIELDS_LEN]
  {
    var header := input[..BROADCAST_HEADER_LENGTH];
    var off := HEADER_LENGTH;
    var netOff := off + SHA256_HASH_LEN;
    var srcOff := netOff + NETWORK_NUM_LEN;
    assert header[off..netOff] == input[off..netOff];
    assert header[off..srcOff] == input[off..srcOff];
    assert header[netOff..srcOff] == input[netOff..srcOff];
    assert header[srcOff..off + BROADCAST_ID_FIELDS_LEN] == input[srcOff..off + BROADCAST_ID_FIELDS_LEN];
  }

  /** The fields of a full preview are the bytes at their offsets in the input. */
  lemma PreviewFields(input: seq<byte>, headerPayloadLength: nat)
    requires GetBroadcastMessagePreview(input, headerPayloadLength).Ok?
    requires GetBroadcastMessagePreview(input, headerPayloadLength).value.isFullHeader
    ensures FullPreviewOf(input, GetBroadcastMessagePreview(input, headerPayloadLength).value, headerPayloadLength)
  {
    var netOff := HEADER_LENGTH + SHA256_HASH_LEN;
    assert BROADCAST_FIELDS_LEN >= BROADCAST_ID_FIELDS_LEN;
    PreviewSlices(input);
    LEOfFromLE(input[netOff..netOff + NETWORK_NUM_LEN]);
  }

  /** A broadcast message's opening bytes: the common header, then the hash, network number and source id. */
  function BroadcastPrefix(header: seq<byte>, blockHash: Sha256Hash, networkNum: nat, sourceId: seq<byte>)
    : seq<byte>
    requires networkNum < Pow256(NETWORK_NUM_LEN)
  {
    header + blockHash + LE(networkNum, NETWORK_NUM_LEN) + sourceId
  }

  /** The fields of a broadcast prefix sit at their offsets, whatever follows the prefix. */
  lemma PrefixSlices(header: seq<byte>, blockHash: Sha256Hash, networkNum: nat, sourceId: seq<byte>, rest: seq<byte>)
    requires |header| == HEADER_LENGTH && |sourceId| == NODE_ID_SIZE_IN_BYTES
    requires networkNum < Pow256(NETWORK_NUM_LEN)
    ensures var input := BroadcastPrefix(header, blockHash, networkNum, sourceId) + rest;
      var off := HEADER_LENGTH; var netOff := off + SHA256_HASH_LEN; var srcOff := netOff + NETWORK_NUM_LEN;
      && off + BROADCAST_ID_FIELDS_LEN <= |input|
      && input[off..netOff] == blockHash
      && input[netOff..srcOff] == LE(networkNum, NETWORK_NUM_LEN)
      && input[srcOff..off + BROADCAST_ID_FIELDS_LEN] == sourceId
  {
    var packed := LE(networkNum, NETWORK_NUM_LEN);
    var fields := blockHash + packed + sourceId;
    var input := header + fields + rest;
    assert BroadcastPrefix(header, blockHash, networkNum, sourceId) + rest == input;
    assert input[HEADER_LENGTH..HEADER_LENGTH + BROADCAST_ID_FIELDS_LEN] == fields;
  }

  /**
   * Previewing a buffer that starts with a broadcast header gives back its hash, network number and source id, and
   * a message id that starts with the hash, whatever follows the header.
   */
  lemma PreviewOfPrefix(header: seq<byte>, blockHash: Sha256Hash, networkNum: nat, sourceId: seq<byte>,
                        rest: seq<byte>, headerPayloadLength: nat)
    requires |header| == HEADER_LENGTH && |sourceId| == NODE_ID_SIZE_IN_BYTES
    requires networkNum < Pow256(NETWORK_NUM_LEN)
    requires BROADCAST_FIELDS_LEN >= BROADCAST_ID_FIELDS_LEN && BROADCAST_TYPE_LEN >= PACKED_TYPE_LEN
    requires |header| + BROADCAST_ID_FIELDS_LEN + |rest| >= BROADCAST_HEADER_LENGTH
    ensures var r := GetBroadcastMessagePreview(BroadcastPrefix(header, blockHash, networkNum, sourceId) + rest,
                                                headerPayloadLength);
      && r.Ok? && r.value.isFullHeader
      && r.value.blockHash == Some(blockHash)
      && r.value.networkNum == Some(networkNum)
      && r.value.sourceId == Some(sourceId)
      && r.value.messageId.Some? && r.value.messageId.value[..SHA256_HASH_LEN] == blockHash
  {
    var input := BroadcastPrefix(header, blockHash, networkNum, sourceId) + rest;
    var off := HEADER_LENGTH;
    var netOff := off + SHA256_HASH_LEN;
    PrefixSlices(header, blockHash, networkNum, sourceId, rest);
    PreviewFields(input, headerPayloadLength);
    var p := GetBroadcastMessagePreview(input, headerPayloadLength).value;
    FromLEOfLE(networkNum, NETWORK_NUM_LEN);
    FromLEOfLE(p.networkNum.value, NETWORK_NUM_LEN);
    assert p.messageId.value[..SHA256_HASH_LEN] == input[off..netOff];
  }
}
