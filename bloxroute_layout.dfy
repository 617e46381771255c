/**
 * Offsets and widths of the bloXroute message layout. The values that the base message classes and the part of
 * `constants.py` not covered here define are left symbolic: every property below holds whatever they are.
 */
module BloxrouteLayout {
  import opened Bytes

  /** Bytes of the common message header (`HDR_COMMON_OFF`). */
  const HDR_COMMON_OFF: nat := 16

  /** `NETWORK_NUM_LEN`, a `<L` value. */
  const NETWORK_NUM_LEN: nat := UL_INT_SIZE_IN_BYTES

  /** `NODE_ID_SIZE_IN_BYTES`, the packed width of a source id. */
  const NODE_ID_SIZE_IN_BYTES: nat := 16

  /** `AbstractBloxrouteMessage.HEADER_LENGTH`. */
  const HEADER_LENGTH: nat

  /** `CONTROL_FLAGS_LEN`: the control flags that end every broadcast payload. */
  const CONTROL_FLAGS_LEN: nat

  /** The part of `AbstractBroadcastMessage.PAYLOAD_LENGTH` before the trailing control flags. */
  const BROADCAST_FIELDS_LEN: nat

  /** `AbstractBroadcastMessage.PAYLOAD_LENGTH`. */
  const BROADCAST_PAYLOAD_LENGTH: nat := BROADCAST_FIELDS_LEN + CONTROL_FLAGS_LEN

  /** `BROADCAST_TYPE_LEN`. */
  const BROADCAST_TYPE_LEN: nat

  /** `SID_LEN`: taken as the width of the `<L` short id packed at its offset. */
  const SID_LEN: nat := UL_INT_SIZE_IN_BYTES

  /** `QUOTA_FLAG_LEN`: taken as the width of the `<B` quota flag packed at its offset. */
  const QUOTA_FLAG_LEN: nat := 1

  /** `DOUBLE_SIZE_IN_BYTES`. */
  const DOUBLE_SIZE_IN_BYTES: nat

  /** Where a broadcast message's own fields end: `HEADER_LENGTH + PAYLOAD_LENGTH - CONTROL_FLAGS_LEN`. */
  const BROADCAST_HEADER_LENGTH: nat := HEADER_LENGTH + BROADCAST_FIELDS_LEN
}
