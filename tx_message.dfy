/**
 * `TxMessage`, the broadcast of one transaction: after the broadcast fields written by the base class come a u32
 * short id, a one-byte quota flag and the transaction bytes, and the payload ends with the control flags. The
 * accessors read these fields back from the buffer and remember what they read.
 */
module TxMessages {
  import opened Wrappers
  import opened Bytes
  import opened Transactions
  import opened BloxrouteLayout

  /** Offset of the short id: `HEADER_LENGTH + AbstractBroadcastMessage.PAYLOAD_LENGTH - CONTROL_FLAGS_LEN`. */
  const SHORT_ID_OFFSET: nat := BROADCAST_HEADER_LENGTH

  /** Offset of the quota flag, right after the short id. */
  const QUOTA_OFFSET: nat := SHORT_ID_OFFSET + SID_LEN

  /** Offset of the transaction bytes, right after the quota flag. */
  const TX_VAL_OFFSET: nat := QUOTA_OFFSET + QUOTA_FLAG_LEN

  /** The class attribute `TxMessage.PAYLOAD_LENGTH`: the broadcast payload plus the short id and the quota flag. */
  const TX_PAYLOAD_LENGTH: nat := BROADCAST_PAYLOAD_LENGTH + SID_LEN + QUOTA_FLAG_LEN

  /** The value of `TxQuotaType.NONE`. */
  const QUOTA_NONE: byte

  /** The values of the members of `TxQuotaType`. */
  const QUOTA_TYPES: set<byte>

  /** What the accessors raise: `struct.error` for a buffer too short, `ValueError` for a flag no quota type has. */
  datatype TxError = Truncated(StructError) | UnknownQuotaType(flag: byte)

  /** The length of the transaction bytes handed to the constructor (none given counts as none written). */
  function ValLength(txVal: Option<seq<byte>>): nat
  {
    if txVal.Some? then |txVal.value| else 0
  }

  /** The payload length the constructor hands to the base class: the class attribute, overridden when a value is given. */
  function PayloadLength(txVal: Option<seq<byte>>): (n: nat)
    ensures HEADER_LENGTH + n == TX_VAL_OFFSET + ValLength(txVal) + CONTROL_FLAGS_LEN
    ensures txVal.None? ==> n == TX_PAYLOAD_LENGTH
    ensures n >= TX_PAYLOAD_LENGTH > 0
  {
    if txVal.Some? then BROADCAST_PAYLOAD_LENGTH + SID_LEN + QUOTA_FLAG_LEN + |txVal.value| else TX_PAYLOAD_LENGTH
  }

  /** The quota flag the constructor writes: `TxQuotaType.NONE` when none is given. */
  function QuotaOrDefault(quota: Option<byte>): byte
  {
    if quota.Some? then quota.value else QUOTA_NONE
  }

  /** The buffer the constructor leaves: the base class's buffer with the short id, quota flag and value packed in. */
  function Layout(base: seq<byte>, shortId: nat, quota: Option<byte>, txVal: Option<seq<byte>>): (r: seq<byte>)
    requires shortId < Pow256(SID_LEN) && TX_VAL_OFFSET + ValLength(txVal) <= |base|
    ensures |r| == |base|
  {
    var withId := WriteAt(base, SHORT_ID_OFFSET, LE(shortId, SID_LEN));
    var withQuota := WriteAt(withId, QUOTA_OFFSET, [QuotaOrDefault(quota)]);
    if txVal.Some? then WriteAt(withQuota, TX_VAL_OFFSET, txVal.value) else withQuota
  }

  /** What `short_id()` reads: the `<L` at the short id offset, which packs back to the four bytes there. */
  function ShortIdAt(b: seq<byte>): (r: Result<nat, TxError>)
    ensures r.Err? <==> |b| < QUOTA_OFFSET
    ensures r.Err? ==> r.error == Truncated(StructError)
    ensures r.Ok? ==> r.value < Pow256(SID_LEN) && LE(r.value, SID_LEN) == b[SHORT_ID_OFFSET..QUOTA_OFFSET]
  {
    if |b| < QUOTA_OFFSET then Err(Truncated(StructError))
    else
      var v := U32At(b, SHORT_ID_OFFSET);
      FromLEAtSlice(b, SHORT_ID_OFFSET, SID_LEN);
      LEOfFromLE(b[SHORT_ID_OFFSET..QUOTA_OFFSET]);
      Ok(v)
  }

  /** What `quota_type()` reads: the `<B` flag after the short id, which must be the value of a quota type. */
  function QuotaAt(b: seq<byte>): (r: Result<byte, TxError>)
    ensures r.Ok? <==> |b| >= TX_VAL_OFFSET && b[QUOTA_OFFSET] in QUOTA_TYPES
    ensures r.Ok? ==> [r.value] == b[QUOTA_OFFSET..TX_VAL_OFFSET]
    ensures |b| < TX_VAL_OFFSET ==> r == Err(Truncated(StructError))
    ensures |b| >= TX_VAL_OFFSET && b[QUOTA_OFFSET] !in QUOTA_TYPES ==> r == Err(UnknownQuotaType(b[QUOTA_OFFSET]))
  {
    if |b| < TX_VAL_OFFSET then Err(Truncated(StructError))
    else if b[QUOTA_OFFSET] !in QUOTA_TYPES then Err(UnknownQuotaType(b[QUOTA_OFFSET]))
    else Ok(b[QUOTA_OFFSET])
  }

  /**
   * What `tx_val()` gives: nothing for an empty payload, otherwise the view from the value's offset to the end of
   * the payload before the control flags, with Python's slice rules.
   */
  function TxValOf(b: seq<byte>, payloadLen: nat): (r: seq<byte>)
    ensures payloadLen == 0 ==> r == []
    ensures payloadLen != 0 && TX_VAL_OFFSET <= HEADER_LENGTH + payloadLen - CONTROL_FLAGS_LEN <= |b| ==>
      r == b[TX_VAL_OFFSET..HEADER_LENGTH + payloadLen - CONTROL_FLAGS_LEN]
    ensures |r| <= |b|
  {
    if payloadLen == 0 then [] else PySlice(b, TX_VAL_OFFSET, HEADER_LENGTH + payloadLen - CONTROL_FLAGS_LEN)
  }

  /** The short id reads back from a constructed message. */
  lemma LayoutShortId(base: seq<byte>, shortId: nat, quota: Option<byte>, txVal: Option<seq<byte>>)
    requires shortId < Pow256(SID_LEN) && TX_VAL_OFFSET + ValLength(txVal) <= |base|
    ensures ShortIdAt(Layout(base, shortId, quota, txVal)) == Ok(shortId)
  {
    var withId := WriteAt(base, SHORT_ID_OFFSET, LE(shortId, SID_LEN));
    var withQuota := WriteAt(withId, QUOTA_OFFSET, [QuotaOrDefault(quota)]);
    WriteAtOutside(withId, QUOTA_OFFSET, [QuotaOrDefault(quota)], SHORT_ID_OFFSET, QUOTA_OFFSET);
    if txVal.Some? {
      WriteAtOutside(withQuota, TX_VAL_OFFSET, txVal.value, SHORT_ID_OFFSET, QUOTA_OFFSET);
    }
    var r := Layout(base, shortId, quota, txVal);
    assert r[SHORT_ID_OFFSET..QUOTA_OFFSET] == LE(shortId, SID_LEN);
    FromLEInjective(LE(ShortIdAt(r).value, SID_LEN), LE(shortId, SID_LEN));
    FromLEOfLE(shortId, SID_LEN);
    FromLEOfLE(ShortIdAt(r).value, SID_LEN);
  }

  /** The quota flag reads back from a constructed message, `TxQuotaType.NONE` when none was given. */
  lemma LayoutQuota(base: seq<byte>, shortId: nat, quota: Option<byte>, txVal: Option<seq<byte>>)
    requires shortId < Pow256(SID_LEN) && TX_VAL_OFFSET + ValLength(txVal) <= |base|
    requires QuotaOrDefault(quota) in QUOTA_TYPES
    ensures QuotaAt(Layout(base, shortId, quota, txVal)) == Ok(QuotaOrDefault(quota))
    ensures quota.None? ==> QuotaAt(Layout(base, shortId, quota, txVal)) == Ok(QUOTA_NONE)
  {
    var withId := WriteAt(base, SHORT_ID_OFFSET, LE(shortId, SID_LEN));
    var withQuota := WriteAt(withId, QUOTA_OFFSET, [QuotaOrDefault(quota)]);
    assert withQuota[QUOTA_OFFSET] == withQuota[QUOTA_OFFSET..TX_VAL_OFFSET][0];
    if txVal.Some? {
      WriteAtOutside(withQuota, TX_VAL_OFFSET, txVal.value, QUOTA_OFFSET, TX_VAL_OFFSET);
      var r := WriteAt(withQuota, TX_VAL_OFFSET, txVal.value);
      assert r[QUOTA_OFFSET] == r[QUOTA_OFFSET..TX_VAL_OFFSET][0];
    }
  }

  /** The transaction bytes read back from a constructed message; a message built without them has none. */
  lemma LayoutTxVal(base: seq<byte>, shortId: nat, quota: Option<byte>, txVal: Option<seq<byte>>)
    requires shortId < Pow256(SID_LEN) && |base| == HEADER_LENGTH + PayloadLength(txVal)
    ensures TxValOf(Layout(base, shortId, quota, txVal), PayloadLength(txVal)) ==
      if txVal.Some? then txVal.value else []
  {
  }

  /** The constructor leaves what the base class wrote before the short id and after the value in place. */
  lemma LayoutKeepsBase(base: seq<byte>, shortId: nat, quota: Option<byte>, txVal: Option<seq<byte>>)
    requires shortId < Pow256(SID_LEN) && TX_VAL_OFFSET + ValLength(txVal) <= |base|
    ensures Layout(base, shortId, quota, txVal)[..SHORT_ID_OFFSET] == base[..SHORT_ID_OFFSET]
    ensures Layout(base, shortId, quota, txVal)[TX_VAL_OFFSET + ValLength(txVal)..] ==
      base[TX_VAL_OFFSET + ValLength(txVal)..]
  {
    var withId := WriteAt(base, SHORT_ID_OFFSET, LE(shortId, SID_LEN));
    var withQuota := WriteAt(withId, QUOTA_OFFSET, [QuotaOrDefault(quota)]);
    var e := TX_VAL_OFFSET + ValLength(txVal);
    WriteAtOutside(base, SHORT_ID_OFFSET, LE(shortId, SID_LEN), e, |base|);
    WriteAtOutside(withId, QUOTA_OFFSET, [QuotaOrDefault(quota)], 0, SHORT_ID_OFFSET);
    WriteAtOutside(withId, QUOTA_OFFSET, [QuotaOrDefault(quota)], e, |base|);
    if txVal.Some? {
      WriteAtOutside(withQuota, TX_VAL_OFFSET, txVal.value, 0, SHORT_ID_OFFSET);
    }
  }

  /** A `TxMessage`: its buffer, the payload length of its header, and the fields read so far. */
  class TxMessage {
    const buf: array<byte>
    const payloadLen: nat
    var shortIdCache: Option<nat>
    var quotaCache: Option<byte>
    var txValCache: Option<seq<byte>>

    /** Whatever has been read and remembered is what the buffer holds. */
    ghost predicate Valid()
      reads this, buf
    {
      && (shortIdCache.Some? ==> ShortIdAt(buf[..]) == Ok(shortIdCache.value))
      && (quotaCache.Some? ==> QuotaAt(buf[..]) == Ok(quotaCache.value))
      && (txValCache.Some? ==> txValCache.value == TxValOf(buf[..], payloadLen))
    }

    /**
     * `TxMessage(..., short_id, tx_val, quota_type)` with no buffer: `base` is the buffer the base class allocates
     * and fills for the payload length computed here; the short id, the quota flag and the value are packed after it.
     */
    constructor (base: seq<byte>, shortId: nat := NULL_TX_SID, txVal: Option<seq<byte>> := None,
                 quota: Option<byte> := None)
      requires |base| == HEADER_LENGTH + PayloadLength(txVal)
      requires shortId < Pow256(SID_LEN)
      ensures Valid() && fresh(buf)
      ensures buf[..] == Layout(base, shortId, quota, txVal)
      ensures payloadLen == PayloadLength(txVal)
      ensures shortIdCache == None && quotaCache == None && txValCache == None
    {
      payloadLen := PayloadLength(txVal);
      buf := new byte[|base|](i requires 0 <= i < |base| => base[i]);
      shortIdCache, quotaCache, txValCache := None, None, None;
      new;
      assert buf[..] == base;
      var off := SHORT_ID_OFFSET;
      PackInto(buf, off, LE(shortId, SID_LEN));
      off := off + SID_LEN;
      var flag := if quota.None? then QUOTA_NONE else quota.value;
      PackInto(buf, off, [flag]);
      off := off + QUOTA_FLAG_LEN;
      if txVal.Some? {
        PackInto(buf, off, txVal.value);
      }
    }

    /** `TxMessage(buf=...)`: a received buffer and the payload length its header states. */
    constructor FromBuffer(bytes: seq<byte>, headerPayloadLen: nat)
      ensures Valid() && fresh(buf)
      ensures buf[..] == bytes && payloadLen == headerPayloadLen
      ensures shortIdCache == None && quotaCache == None && txValCache == None
    {
      payloadLen := headerPayloadLen;
      buf := new byte[|bytes|](i requires 0 <= i < |bytes| => bytes[i]);
      shortIdCache, quotaCache, txValCache := None, None, None;
      new;
      assert buf[..] == bytes;
    }

    /** `short_id()`: unpacked on the first call, remembered afterwards. */
    method ShortId() returns (r: Result<nat, TxError>)
      requires Valid()
      modifies this
      ensures Valid()
      ensures r == ShortIdAt(buf[..])
      ensures shortIdCache == if r.Ok? then Some(r.value) else None
      ensures quotaCache == old(quotaCache) && txValCache == old(txValCache)
    {
      if shortIdCache.None? {
        if SHORT_ID_OFFSET + SID_LEN > buf.Length {
          return Err(Truncated(StructError));
        }
        shortIdCache := Some(U32At(buf[..], SHORT_ID_OFFSET));
      }
      r := Ok(shortIdCache.value);
    }

    /** `quota_type()`: the flag unpacked and converted on the first call, remembered afterwards. */
    method QuotaType() returns (r: Result<byte, TxError>)
      requires Valid()
      modifies this
      ensures Valid()
      ensures r == QuotaAt(buf[..])
      ensures quotaCache == if r.Ok? then Some(r.value) else None
      ensures shortIdCache == old(shortIdCache) && txValCache == old(txValCache)
    {
      if quotaCache.None? {
        if QUOTA_OFFSET + QUOTA_FLAG_LEN > buf.Length {
          return Err(Truncated(StructError));
        }
        var flag := buf[QUOTA_OFFSET];
        if flag !in QUOTA_TYPES {
          return Err(UnknownQuotaType(flag));
        }
        quotaCache := Some(flag);
      }
      r := Ok(quotaCache.value);
    }

    /** `tx_val()`: the view of the transaction bytes, cut on the first call and remembered afterwards. */
    method TxVal() returns (r: seq<byte>)
      requires Valid()
      modifies this
      ensures Valid()
      ensures r == TxValOf(buf[..], payloadLen)
      ensures txValCache == Some(r)
      ensures shortIdCache == old(shortIdCache) && quotaCache == old(quotaCache)
    {
      if txValCache.None? {
        if payloadLen == 0 {
          txValCache := Some([]);
        } else {
          txValCache := Some(PySlice(buf[..], TX_VAL_OFFSET, HEADER_LENGTH + payloadLen - CONTROL_FLAGS_LEN));
        }
      }
      r := txValCache.value;
    }
  }

  /** A message built from fields gives each of them back through its accessors. */
  lemma BuiltRoundTrip(base: seq<byte>, shortId: nat, quota: Option<byte>, txVal: Option<seq<byte>>)
    requires shortId < Pow256(SID_LEN) && |base| == HEADER_LENGTH + PayloadLength(txVal)
    requires QuotaOrDefault(quota) in QUOTA_TYPES
    ensures var b := Layout(base, shortId, quota, txVal);
      && ShortIdAt(b) == Ok(shortId)
      && QuotaAt(b) == Ok(QuotaOrDefault(quota))
      && TxValOf(b, PayloadLength(txVal)) == (if txVal.Some? then txVal.value else [])
  {
    LayoutShortId(base, shortId, quota, txVal);
    LayoutQuota(base, shortId, quota, txVal);
    LayoutTxVal(base, shortId, quota, txVal);
  }
}
