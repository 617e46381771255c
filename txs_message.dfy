/**
 * `TxsMessage`, the reply to a request for transactions: after the common header, a u32 count and then, per
 * transaction, its u32 short id, its 32-byte hash, the u32 length of its contents and the contents themselves.
 */
module TxsMessages {
  import opened Wrappers
  import opened Bytes
  import opened Transactions
  import opened BloxrouteLayout

  /** The bytes of one transaction entry besides its contents: a 4-byte short id, a 32-byte hash, a 4-byte length. */
  const TX_ENTRY_OVERHEAD: nat := 40

  /** A transaction as `_parse` yields it: the hash and contents are the (possibly short) slices it cut. */
  datatype ParsedTx = ParsedTx(hash: seq<byte>, contents: seq<byte>, shortId: nat)

  /** What `_txs_to_bytes` needs of a transaction: a hash and contents, and values that fit `"<L"`. */
  predicate PackableTx(t: TransactionInfo)
  {
    t.hash.Some? && t.contents.Some? && 0 <= t.shortId < Pow256(UL_INT_SIZE_IN_BYTES)
    && |t.contents.value| < Pow256(UL_INT_SIZE_IN_BYTES)
  }

  predicate Packable(txs: seq<TransactionInfo>)
  {
    |txs| < Pow256(UL_INT_SIZE_IN_BYTES) && forall i :: 0 <= i < |txs| ==> PackableTx(txs[i])
  }

  /** Total length of the contents. */
  function ContentsLength(txs: seq<TransactionInfo>): nat
    requires forall i :: 0 <= i < |txs| ==> txs[i].contents.Some?
  {
    if txs == [] then 0 else ContentsLength(txs[..|txs| - 1]) + |txs[|txs| - 1].contents.value|
  }

  /** The bytes of one transaction entry. */
  function TxBytes(t: TransactionInfo): seq<byte>
    requires PackableTx(t)
  {
    LE(t.shortId, UL_INT_SIZE_IN_BYTES) + t.hash.value + LE(|t.contents.value|, UL_INT_SIZE_IN_BYTES) + t.contents.value
  }

  /** The entries in list order. */
  function EntriesBytes(txs: seq<TransactionInfo>): seq<byte>
    requires forall i :: 0 <= i < |txs| ==> PackableTx(txs[i])
  {
    if txs == [] then [] else TxBytes(txs[0]) + EntriesBytes(txs[1..])
  }

  /** The buffer `_txs_to_bytes` builds: the header left zero, the count, then the entries. */
  function Serialized(txs: seq<TransactionInfo>): seq<byte>
    requires Packable(txs)
  {
    Zeros(HDR_COMMON_OFF) + LE(|txs|, UL_INT_SIZE_IN_BYTES) + EntriesBytes(txs)
  }

  /** What the parser is expected to give back for a list it was built from. */
  function Parsed(txs: seq<TransactionInfo>): (r: seq<ParsedTx>)
    requires forall i :: 0 <= i < |txs| ==> PackableTx(txs[i])
    ensures |r| == |txs|
    ensures forall i :: 0 <= i < |txs| ==> r[i] == AsParsed(txs[i])
  {
    if txs == [] then [] else [AsParsed(txs[0])] + Parsed(txs[1..])
  }

  function AsParsed(t: TransactionInfo): ParsedTx
    requires PackableTx(t)
  {
    ParsedTx(t.hash.value, t.contents.value, t.shortId)
  }

  /** The `for tx_index in range(count)` loop of `_parse` from offset `off`, with `count` entries still to read. */
  function ParseEntries(buf: seq<byte>, off: nat, count: nat): Result<seq<ParsedTx>, StructError>
    decreases count
  {
    if count == 0 then Ok([])
    else if off + TX_ENTRY_OVERHEAD > |buf| then Err(StructError)
    else Prepend([EntryAt(buf, off)], ParseEntries(buf, EntryEnd(buf, off), count - 1))
  }

  /** The entry at `off` once both length fields fit: the hash slice is then whole, the contents slice may be short. */
  function EntryAt(buf: seq<byte>, off: nat): ParsedTx
    requires off + TX_ENTRY_OVERHEAD <= |buf|
  {
    var start := off + TX_ENTRY_OVERHEAD;
    ParsedTx(buf[off + UL_INT_SIZE_IN_BYTES..off + UL_INT_SIZE_IN_BYTES + SHA256_HASH_LEN],
             PySlice(buf, start, start + EntrySize(buf, off)), U32At(buf, off))
  }

  /** The contents length field of the entry at `off`. */
  function EntrySize(buf: seq<byte>, off: nat): nat
    requires off + TX_ENTRY_OVERHEAD <= |buf|
  {
    U32At(buf, off + UL_INT_SIZE_IN_BYTES + SHA256_HASH_LEN)
  }

  /** Where the next entry starts: the offset advances by the stated length even past the end of the buffer. */
  function EntryEnd(buf: seq<byte>, off: nat): nat
    requires off + TX_ENTRY_OVERHEAD <= |buf|
  {
    off + TX_ENTRY_OVERHEAD + EntrySize(buf, off)
  }

  /** `_parse()`: the count at offset 16, then that many entries. */
  function ParseTxs(buf: seq<byte>): Result<seq<ParsedTx>, StructError>
  {
    if HDR_COMMON_OFF + UL_INT_SIZE_IN_BYTES > |buf| then Err(StructError)
    else ParseEntries(buf, HDR_COMMON_OFF + UL_INT_SIZE_IN_BYTES, U32At(buf, HDR_COMMON_OFF))
  }

  /** `ps` prepended to a successful parse. */
  function Prepend(ps: seq<ParsedTx>, r: Result<seq<ParsedTx>, StructError>): Result<seq<ParsedTx>, StructError>
  {
    match r
    case Ok(rest) => Ok(ps + rest)
    case Err(e) => Err(e)
  }

  lemma PrependAssoc(a: seq<ParsedTx>, b: seq<ParsedTx>, r: Result<seq<ParsedTx>, StructError>)
    ensures Prepend(a, Prepend(b, r)) == Prepend(a + b, r)
  {
    if r.Ok? {
      assert a + (b + r.value) == a + b + r.value;
    }
  }

  lemma PrependUnit(r: Result<seq<ParsedTx>, StructError>)
    ensures Prepend([], r) == r
    ensures r.Ok? ==> Prepend(r.value, Ok([])) == r
  {
    if r.Ok? {
      assert [] + r.value == r.value + [] == r.value;
    }
  }

  lemma {:induction false} ContentsLengthAppend(txs: seq<TransactionInfo>, t: TransactionInfo)
    requires forall i :: 0 <= i < |txs| ==> txs[i].contents.Some?
    requires t.contents.Some?
    ensures ContentsLength(txs + [t]) == ContentsLength(txs) + |t.contents.value|
  {
    assert (txs + [t])[..|txs|] == txs;
  }

  /** The entries take 40 bytes each plus their contents. */
  lemma {:induction false} EntriesBytesLength(txs: seq<TransactionInfo>)
    requires forall i :: 0 <= i < |txs| ==> PackableTx(txs[i])
    ensures |EntriesBytes(txs)| == TX_ENTRY_OVERHEAD * |txs| + ContentsLength(txs)
  {
    if txs != [] {
      EntriesBytesLength(txs[1..]);
      ContentsLengthFront(txs);
    }
  }

  lemma {:induction false} ContentsLengthFront(txs: seq<TransactionInfo>)
    requires txs != [] && forall i :: 0 <= i < |txs| ==> txs[i].contents.Some?
    ensures ContentsLength(txs) == |txs[0].contents.value| + ContentsLength(txs[1..])
    decreases |txs|
  {
    if |txs| > 1 {
      ContentsLengthFront(txs[..|txs| - 1]);
      assert txs[..|txs| - 1][1..] == txs[1..][..|txs| - 2];
    }
  }

  lemma {:induction false} EntriesBytesAppend(txs: seq<TransactionInfo>, t: TransactionInfo)
    requires forall i :: 0 <= i < |txs| ==> PackableTx(txs[i])
    requires PackableTx(t)
    ensures EntriesBytes(txs + [t]) == EntriesBytes(txs) + TxBytes(t)
  {
    if txs == [] {
      assert [t][1..] == [];
    } else {
      assert (txs + [t])[1..] == txs[1..] + [t];
      EntriesBytesAppend(txs[1..], t);
    }
  }

  /** The size `_txs_to_bytes` allocates is the length of what it writes. */
  lemma SerializedSize(txs: seq<TransactionInfo>)
    requires Packable(txs)
    ensures |Serialized(txs)| ==
      HDR_COMMON_OFF + UL_INT_SIZE_IN_BYTES + |txs| * TX_ENTRY_OVERHEAD + ContentsLength(txs)
  {
    EntriesBytesLength(txs);
  }

  /** The count sits as a little-endian u32 at offset 16, and the entries follow it. */
  lemma SerializedLayout(txs: seq<TransactionInfo>)
    requires Packable(txs)
    ensures U32At(Serialized(txs), HDR_COMMON_OFF) == |txs|
    ensures Serialized(txs)[HDR_COMMON_OFF + UL_INT_SIZE_IN_BYTES..] == EntriesBytes(txs)
  {
    U32AtBetween(Zeros(HDR_COMMON_OFF), |txs|, EntriesBytes(txs));
  }

  /** The fields of one entry read back from wherever it sits in a buffer. */
  lemma EntryFields(pre: seq<byte>, t: TransactionInfo, post: seq<byte>)
    requires PackableTx(t)
    ensures var buf := pre + TxBytes(t) + post; var off := |pre|; var c := t.contents.value;
      && off + TX_ENTRY_OVERHEAD + |c| <= |buf|
      && U32At(buf, off) == t.shortId
      && PySlice(buf, off + UL_INT_SIZE_IN_BYTES, off + UL_INT_SIZE_IN_BYTES + SHA256_HASH_LEN) == t.hash.value
      && U32At(buf, off + UL_INT_SIZE_IN_BYTES + SHA256_HASH_LEN) == |c|
      && PySlice(buf, off + TX_ENTRY_OVERHEAD, off + TX_ENTRY_OVERHEAD + |c|) == c
  {
    var tb := TxBytes(t);
    var c := t.contents.value;
    var w := UL_INT_SIZE_IN_BYTES;
    assert tb[..w] == LE(t.shortId, w);
    assert tb[w..w + SHA256_HASH_LEN] == t.hash.value;
    assert tb[w + SHA256_HASH_LEN..TX_ENTRY_OVERHEAD] == LE(|c|, w);
    assert tb[TX_ENTRY_OVERHEAD..] == c;
    Middle(pre, tb, post, 0, w);
    Middle(pre, tb, post, w, w + SHA256_HASH_LEN);
    Middle(pre, tb, post, w + SHA256_HASH_LEN, TX_ENTRY_OVERHEAD);
    Middle(pre, tb, post, TX_ENTRY_OVERHEAD, |tb|);
    U32AtOfLE(pre + tb + post, |pre|, t.shortId);
    U32AtOfLE(pre + tb + post, |pre| + w + SHA256_HASH_LEN, |c|);
  }

  /** A slice of the middle part of a concatenation. */
  lemma Middle(pre: seq<byte>, mid: seq<byte>, post: seq<byte>, a: nat, b: nat)
    requires a <= b <= |mid|
    ensures (pre + mid + post)[|pre| + a..|pre| + b] == mid[a..b]
  {
  }

  /** Parsing the entries of a list, whatever precedes and follows them, gives the list back. */
  lemma {:induction false} ParseEntriesOfBytes(pre: seq<byte>, txs: seq<TransactionInfo>, post: seq<byte>)
    requires forall i :: 0 <= i < |txs| ==> PackableTx(txs[i])
    ensures ParseEntries(pre + EntriesBytes(txs) + post, |pre|, |txs|) == Ok(Parsed(txs))
    decreases |txs|
  {
    if txs != [] {
      var t := txs[0];
      var buf := pre + EntriesBytes(txs) + post;
      var rest := EntriesBytes(txs[1..]) + post;
      var pre' := pre + TxBytes(t);
      Regroup(pre, TxBytes(t), EntriesBytes(txs[1..]), post);
      EntryFields(pre, t, rest);
      ReadEntry(buf, |pre|, t.shortId, t.hash.value, |t.contents.value|, t.contents.value, |pre'|);
      ParseEntriesOfBytes(pre', txs[1..], post);
    }
  }

  /** The two groupings of a four-part concatenation that the parse proof moves between. */
  lemma Regroup(a: seq<byte>, b: seq<byte>, c: seq<byte>, d: seq<byte>)
    ensures a + (b + c) + d == a + b + (c + d)
    ensures a + (b + c) + d == (a + b) + c + d
  {
  }

  /** `_parse(_txs_to_bytes(txs))` yields the same (hash, contents, short id) triples in the same order. */
  lemma ParseOfSerialized(txs: seq<TransactionInfo>)
    requires Packable(txs)
    ensures ParseTxs(Serialized(txs)) == Ok(Parsed(txs))
  {
    SerializedLayout(txs);
    var pre := Zeros(HDR_COMMON_OFF) + LE(|txs|, UL_INT_SIZE_IN_BYTES);
    assert Serialized(txs) == pre + EntriesBytes(txs) + [];
    ParseEntriesOfBytes(pre, txs, []);
  }

  /** Writing right after a prefix into the zeroed part of a buffer. */
  lemma WriteAfterPrefix(prefix: seq<byte>, k: nat, data: seq<byte>)
    requires |data| <= k
    ensures WriteAt(prefix + Zeros(k), |prefix|, data) == prefix + data + Zeros(k - |data|)
  {
    var buf := prefix + Zeros(k);
    assert buf[|prefix| + |data|..] == Zeros(k - |data|);
  }

  /** Packing into the zeroed part of the buffer, right after what is already written. */
  method PackAfter(buf: array<byte>, off: nat, ghost done: seq<byte>, data: seq<byte>)
    requires off == |done| && off + |data| <= buf.Length
    requires buf[..] == done + Zeros(buf.Length - |done|)
    modifies buf
    ensures buf[..] == (done + data) + Zeros(buf.Length - |done + data|)
  {
    WriteAfterPrefix(done, buf.Length - |done|, data);
    PackInto(buf, off, data);
  }

  /** One turn of the packing loop: short id, hash, contents length and contents, written right after `done`. */
  method PackEntry(buf: array<byte>, off: nat, t: TransactionInfo, ghost done: seq<byte>) returns (next: nat)
    requires PackableTx(t)
    requires off == |done| && off + |TxBytes(t)| <= buf.Length
    requires buf[..] == done + Zeros(buf.Length - off)
    modifies buf
    ensures next == off + |TxBytes(t)|
    ensures buf[..] == done + TxBytes(t) + Zeros(buf.Length - next)
  {
    var c := t.contents.value;
    ghost var d0 := done + LE(t.shortId, UL_INT_SIZE_IN_BYTES);
    ghost var d1 := d0 + t.hash.value;
    ghost var d2 := d1 + LE(|c|, UL_INT_SIZE_IN_BYTES);
    assert d2 + c == done + TxBytes(t);
    PackAfter(buf, off, done, LE(t.shortId, UL_INT_SIZE_IN_BYTES));
    PackAfter(buf, off + UL_INT_SIZE_IN_BYTES, d0, t.hash.value);
    PackAfter(buf, off + UL_INT_SIZE_IN_BYTES + SHA256_HASH_LEN, d1, LE(|c|, UL_INT_SIZE_IN_BYTES));
    PackAfter(buf, off + TX_ENTRY_OVERHEAD, d2, c);
    next := off + TX_ENTRY_OVERHEAD + |c|;
  }

  /** `_txs_to_bytes(txs)`: sizes the buffer, then packs the count and each entry at an advancing offset. */
  method TxsToBytes(txs: seq<TransactionInfo>) returns (buf: array<byte>)
    requires Packable(txs)
    ensures fresh(buf)
    ensures buf[..] == Serialized(txs)
  {
    var msgSize := HDR_COMMON_OFF + UL_INT_SIZE_IN_BYTES + |txs| * TX_ENTRY_OVERHEAD;
    for i := 0 to |txs|
      invariant msgSize == HDR_COMMON_OFF + UL_INT_SIZE_IN_BYTES + |txs| * TX_ENTRY_OVERHEAD + ContentsLength(txs[..i])
    {
      assert txs[..i + 1] == txs[..i] + [txs[i]];
      ContentsLengthAppend(txs[..i], txs[i]);
      msgSize := msgSize + |txs[i].contents.value|;
    }
    assert txs[..|txs|] == txs;
    SerializedSize(txs);
    buf := new byte[msgSize](_ => 0);
    var off := HDR_COMMON_OFF;
    assert buf[..] == Zeros(HDR_COMMON_OFF) + Zeros(msgSize - HDR_COMMON_OFF);
    PackAfter(buf, off, Zeros(HDR_COMMON_OFF), LE(|txs|, UL_INT_SIZE_IN_BYTES));
    off := off + UL_INT_SIZE_IN_BYTES;
    ghost var head := Zeros(HDR_COMMON_OFF) + LE(|txs|, UL_INT_SIZE_IN_BYTES);
    EntriesBytesLength(txs);
    PackEntries(buf, off, txs, head);
  }

  /** The second loop of `_txs_to_bytes`: each entry packed right after the previous one. */
  method PackEntries(buf: array<byte>, start: nat, txs: seq<TransactionInfo>, ghost head: seq<byte>)
    requires forall j :: 0 <= j < |txs| ==> PackableTx(txs[j])
    requires start == |head| && start + |EntriesBytes(txs)| == buf.Length
    requires buf[..] == head + Zeros(buf.Length - start)
    modifies buf
    ensures buf[..] == head + EntriesBytes(txs)
  {
    var off := start;
    ghost var written := head;
    assert txs[..0] == [] && txs[0..] == txs;
    for i := 0 to |txs|
      invariant written == head + EntriesBytes(txs[..i])
      invariant off == |written| && off + |EntriesBytes(txs[i..])| == buf.Length
      invariant buf[..] == written + Zeros(buf.Length - off)
    {
      var t := txs[i];
      EntriesBytesSplit(txs, i);
      off := PackEntry(buf, off, t, written);
      written := written + TxBytes(t);
    }
    assert txs[..|txs|] == txs;
  }

  /** Moving the loop's boundary over one entry. */
  lemma EntriesBytesSplit(txs: seq<TransactionInfo>, i: nat)
    requires i < |txs| && forall j :: 0 <= j < |txs| ==> PackableTx(txs[j])
    ensures EntriesBytes(txs[i..]) == TxBytes(txs[i]) + EntriesBytes(txs[i + 1..])
    ensures EntriesBytes(txs[..i + 1]) == EntriesBytes(txs[..i]) + TxBytes(txs[i])
  {
    assert txs[i..][1..] == txs[i + 1..];
    assert txs[..i + 1] == txs[..i] + [txs[i]];
    EntriesBytesAppend(txs[..i], txs[i]);
  }

  /** The entry as the loop reads it: the hash slice before the second length check, which then passes. */
  lemma ReadEntry(buf: seq<byte>, off: nat, sid: nat, hash: seq<byte>, size: nat, contents: seq<byte>, next: nat)
    requires off + TX_ENTRY_OVERHEAD <= |buf|
    requires sid == U32At(buf, off)
    requires hash == PySlice(buf, off + UL_INT_SIZE_IN_BYTES, off + UL_INT_SIZE_IN_BYTES + SHA256_HASH_LEN)
    requires size == U32At(buf, off + UL_INT_SIZE_IN_BYTES + SHA256_HASH_LEN)
    requires contents == PySlice(buf, off + TX_ENTRY_OVERHEAD, off + TX_ENTRY_OVERHEAD + size)
    requires next == off + TX_ENTRY_OVERHEAD + size
    ensures EntryAt(buf, off) == ParsedTx(hash, contents, sid) && EntryEnd(buf, off) == next
  {
  }

  /**
   * The state of the loop of `_parse()`: `acc` already read, `count` entries still to read from `off`. Reading on
   * from there ends where parsing the rest and prepending `acc` ends.
   */
  function ParseLoop(buf: seq<byte>, off: nat, count: nat, acc: seq<ParsedTx>): Result<seq<ParsedTx>, StructError>
    decreases count
  {
    if count == 0 then Ok(acc)
    else if off + TX_ENTRY_OVERHEAD > |buf| then Err(StructError)
    else ParseLoop(buf, EntryEnd(buf, off), count - 1, acc + [EntryAt(buf, off)])
  }

  lemma {:induction false} ParseLoopIsPrepend(buf: seq<byte>, off: nat, count: nat, acc: seq<ParsedTx>)
    ensures ParseLoop(buf, off, count, acc) == Prepend(acc, ParseEntries(buf, off, count))
    decreases count
  {
    if count == 0 {
      assert acc + [] == acc;
    } else if off + TX_ENTRY_OVERHEAD <= |buf| {
      ParseLoopIsPrepend(buf, EntryEnd(buf, off), count - 1, acc + [EntryAt(buf, off)]);
      PrependAssoc(acc, [EntryAt(buf, off)], ParseEntries(buf, EntryEnd(buf, off), count - 1));
    }
  }

  /** One turn of the loop of `_parse()`: short id, hash slice, contents length and contents slice at `off`. */
  method ReadTx(buf: seq<byte>, off: nat) returns (r: Result<(ParsedTx, nat), StructError>)
    ensures r.Err? <==> off + TX_ENTRY_OVERHEAD > |buf|
    ensures r.Ok? ==> off + TX_ENTRY_OVERHEAD <= |buf| && r.value == (EntryAt(buf, off), EntryEnd(buf, off))
  {
    var o := off;
    if o + UL_INT_SIZE_IN_BYTES > |buf| {
      return Err(StructError);
    }
    var txSid := U32At(buf, o);
    o := o + UL_INT_SIZE_IN_BYTES;
    var txHash := PySlice(buf, o, o + SHA256_HASH_LEN);
    o := o + SHA256_HASH_LEN;
    if o + UL_INT_SIZE_IN_BYTES > |buf| {
      return Err(StructError);
    }
    var txSize := U32At(buf, o);
    o := o + UL_INT_SIZE_IN_BYTES;
    var tx := PySlice(buf, o, o + txSize);
    o := o + txSize;
    ReadEntry(buf, off, txSid, txHash, txSize, tx, o);
    r := Ok((ParsedTx(txHash, tx, txSid), o));
  }

  /** `_parse()` as the source runs it: unpack the count, then read the entries at an advancing offset. */
  method Parse(buf: seq<byte>) returns (r: Result<seq<ParsedTx>, StructError>)
    ensures r == ParseTxs(buf)
  {
    if HDR_COMMON_OFF + UL_INT_SIZE_IN_BYTES > |buf| {
      return Err(StructError);
    }
    var txsCount := U32At(buf, HDR_COMMON_OFF);
    r := ReadEntries(buf, HDR_COMMON_OFF + UL_INT_SIZE_IN_BYTES, txsCount);
    ParseLoopIsPrepend(buf, HDR_COMMON_OFF + UL_INT_SIZE_IN_BYTES, txsCount, []);
    PrependUnit(ParseEntries(buf, HDR_COMMON_OFF + UL_INT_SIZE_IN_BYTES, txsCount));
  }

  /** The loop of `_parse()`: `count` entries read one after the other from `start`. */
  method ReadEntries(buf: seq<byte>, start: nat, count: nat) returns (r: Result<seq<ParsedTx>, StructError>)
    ensures r == ParseLoop(buf, start, count, [])
  {
    var off := start;
    var txs: seq<ParsedTx> := [];
    for k := 0 to count
      invariant ParseLoop(buf, off, count - k, txs) == ParseLoop(buf, start, count, [])
    {
      var entry := ReadTx(buf, off);
      if entry.Err? {
        return Err(StructError);
      }
      txs := txs + [entry.value.0];
      off := entry.value.1;
    }
    r := Ok(txs);
  }

  /**
   * A `TxsMessage`: its buffer, the payload length handed to the base class when built from a list, and the
   * lazily parsed transactions.
   */
  class TxsMessage {
    var buf: seq<byte>
    var payloadLength: Option<int>
    var txs: Option<seq<ParsedTx>>

    /** The parsed list, once cached, is the parse of the buffer. */
    ghost predicate Valid()
      reads this
    {
      txs.Some? ==> ParseTxs(buf) == Ok(txs.value)
    }

    /** `TxsMessage(txs=...)`: serialises the list; the payload is everything after the common header. */
    constructor FromTxs(list: seq<TransactionInfo>)
      requires Packable(list)
      ensures Valid()
      ensures buf == Serialized(list) && txs == None
      ensures payloadLength == Some(|buf| - HDR_COMMON_OFF)
    {
      var bytes := TxsToBytes(list);
      SerializedSize(list);
      buf := bytes[..];
      payloadLength := Some(bytes.Length - HDR_COMMON_OFF);
      txs := None;
    }

    /** `TxsMessage(buf=...)`: keeps the buffer as is; nothing is parsed yet. */
    constructor FromBuffer(bytes: seq<byte>)
      ensures Valid()
      ensures buf == bytes && txs == None && payloadLength == None
    {
      buf := bytes;
      payloadLength := None;
      txs := None;
    }

    /** `get_txs()`: parses on the first call and answers from the cache afterwards. */
    method GetTxs() returns (r: Result<seq<ParsedTx>, StructError>)
      requires Valid()
      modifies this
      ensures Valid()
      ensures r == ParseTxs(buf)
      ensures buf == old(buf) && payloadLength == old(payloadLength)
      ensures old(txs).Some? ==> txs == old(txs)
      ensures r.Ok? ==> txs == Some(r.value)
      ensures r.Err? ==> txs == None
    {
      if txs.None? {
        r := Parse(buf);
        if r.Ok? {
          txs := Some(r.value);
        }
      } else {
        r := Ok(txs.value);
      }
    }
  }

  /** A message built from a list gives that list back on `get_txs()`. */
  lemma FromTxsRoundTrip(list: seq<TransactionInfo>)
    requires Packable(list)
    ensures ParseTxs(Serialized(list)) == Ok(Parsed(list))
    ensures |Serialized(list)| - HDR_COMMON_OFF ==
      UL_INT_SIZE_IN_BYTES + |list| * TX_ENTRY_OVERHEAD + ContentsLength(list)
  {
    ParseOfSerialized(list);
    SerializedSize(list);
  }
}
