/** Bytes and the little-endian integer packing of Python's `struct` module (`<H`, `<I`, `<L`). */
module Bytes {

  type byte = b: int | 0 <= b < 256

  const UL_SHORT_SIZE_IN_BYTES: nat := 2
  const UL_INT_SIZE_IN_BYTES: nat := 4
  const UNSIGNED_SHORT_MAX_VALUE: nat := 65535

  /** `struct.error`: an unpack that runs past the end of the buffer. */
  datatype StructError = StructError

  /** A fresh `bytearray(n)`: n zero bytes. */
  function Zeros(n: nat): (z: seq<byte>)
    ensures |z| == n
    ensures forall i :: 0 <= i < n ==> z[i] == 0
  {
    seq(n, _ => 0)
  }

  /** 256 to the power n: the number of values that fit in n bytes. */
  function Pow256(n: nat): (p: nat)
    ensures p >= 1
  {
    if n == 0 then 1 else 256 * Pow256(n - 1)
  }

  /** The n-byte little-endian encoding of v (`struct.pack` with an unsigned format of width n). */
  function LE(v: nat, n: nat): (s: seq<byte>)
    ensures |s| == n
  {
    if n == 0 then [] else [v % 256] + LE(v / 256, n - 1)
  }

  /** The unsigned value of a little-endian byte string (`struct.unpack` with an unsigned format). */
  function FromLE(s: seq<byte>): (v: nat)
    ensures v < Pow256(|s|)
  {
    if s == [] then 0
    else
      var rest := FromLE(s[1..]);
      assert 256 * rest <= 256 * (Pow256(|s| - 1) - 1);
      s[0] + 256 * rest
  }

  /** Unpacking what was packed gives back the value, when it fits in the width. */
  lemma {:induction false} FromLEOfLE(v: nat, n: nat)
    requires v < Pow256(n)
    ensures FromLE(LE(v, n)) == v
  {
    if n > 0 {
      assert v / 256 < Pow256(n - 1);
      FromLEOfLE(v / 256, n - 1);
      assert LE(v, n)[1..] == LE(v / 256, n - 1);
    }
  }

  /** Packing what was unpacked gives back the bytes. */
  lemma {:induction false} LEOfFromLE(s: seq<byte>)
    ensures LE(FromLE(s), |s|) == s
  {
    if s != [] {
      var rest := FromLE(s[1..]);
      assert (s[0] + 256 * rest) % 256 == s[0];
      assert (s[0] + 256 * rest) / 256 == rest;
      LEOfFromLE(s[1..]);
    }
  }

  /** Two byte strings of one width that unpack to the same value are equal. */
  lemma FromLEInjective(a: seq<byte>, b: seq<byte>)
    requires |a| == |b| && FromLE(a) == FromLE(b)
    ensures a == b
  {
    LEOfFromLE(a);
    LEOfFromLE(b);
  }

  /** The unsigned little-endian value of the n bytes of s that start at off (`struct.unpack_from`). */
  function FromLEAt(s: seq<byte>, off: nat, n: nat): (v: nat)
    requires off + n <= |s|
    decreases n
    ensures v < Pow256(n)
  {
    if n == 0 then 0
    else
      var rest := FromLEAt(s, off + 1, n - 1);
      assert 256 * rest <= 256 * (Pow256(n - 1) - 1);
      s[off] + 256 * rest
  }

  /** Reading in place is unpacking the slice. */
  lemma {:induction false} FromLEAtSlice(s: seq<byte>, off: nat, n: nat)
    requires off + n <= |s|
    ensures FromLEAt(s, off, n) == FromLE(s[off..off + n])
    decreases n
  {
    if n > 0 {
      FromLEAtSlice(s, off + 1, n - 1);
      assert s[off..off + n][1..] == s[off + 1..off + n];
    }
  }

  /** `struct.unpack_from("<H", s, off)`. */
  function U16At(s: seq<byte>, off: nat): (v: nat)
    requires off + UL_SHORT_SIZE_IN_BYTES <= |s|
    ensures v <= UNSIGNED_SHORT_MAX_VALUE
  {
    FromLEAt(s, off, UL_SHORT_SIZE_IN_BYTES)
  }

  /** `struct.unpack_from("<I", s, off)` (equally `"<L"`). */
  function U32At(s: seq<byte>, off: nat): (v: nat)
    requires off + UL_INT_SIZE_IN_BYTES <= |s|
    ensures v < Pow256(UL_INT_SIZE_IN_BYTES)
  {
    FromLEAt(s, off, UL_INT_SIZE_IN_BYTES)
  }

  /** The two-byte read of a packed value gives the value back. */
  lemma U16AtOfLE(s: seq<byte>, off: nat, v: nat)
    requires off + UL_SHORT_SIZE_IN_BYTES <= |s| && v <= UNSIGNED_SHORT_MAX_VALUE
    requires s[off..off + UL_SHORT_SIZE_IN_BYTES] == LE(v, UL_SHORT_SIZE_IN_BYTES)
    ensures U16At(s, off) == v
  {
    FromLEAtSlice(s, off, UL_SHORT_SIZE_IN_BYTES);
    FromLEOfLE(v, UL_SHORT_SIZE_IN_BYTES);
  }

  /** The four-byte read of a packed value gives the value back. */
  lemma U32AtOfLE(s: seq<byte>, off: nat, v: nat)
    requires off + UL_INT_SIZE_IN_BYTES <= |s| && v < Pow256(UL_INT_SIZE_IN_BYTES)
    requires s[off..off + UL_INT_SIZE_IN_BYTES] == LE(v, UL_INT_SIZE_IN_BYTES)
    ensures U32At(s, off) == v
  {
    FromLEAtSlice(s, off, UL_INT_SIZE_IN_BYTES);
    FromLEOfLE(v, UL_INT_SIZE_IN_BYTES);
  }

  /** A packed four-byte value reads back from between any two byte strings. */
  lemma U32AtBetween(pre: seq<byte>, v: nat, post: seq<byte>)
    requires v < Pow256(UL_INT_SIZE_IN_BYTES)
    ensures U32At(pre + LE(v, UL_INT_SIZE_IN_BYTES) + post, |pre|) == v
  {
    var s := pre + LE(v, UL_INT_SIZE_IN_BYTES) + post;
    assert s[|pre|..|pre| + UL_INT_SIZE_IN_BYTES] == LE(v, UL_INT_SIZE_IN_BYTES);
    U32AtOfLE(s, |pre|, v);
  }

  /** A packed two-byte value reads back from between any two byte strings. */
  lemma U16AtBetween(pre: seq<byte>, v: nat, post: seq<byte>)
    requires v <= UNSIGNED_SHORT_MAX_VALUE
    ensures U16At(pre + LE(v, UL_SHORT_SIZE_IN_BYTES) + post, |pre|) == v
  {
    var s := pre + LE(v, UL_SHORT_SIZE_IN_BYTES) + post;
    assert s[|pre|..|pre| + UL_SHORT_SIZE_IN_BYTES] == LE(v, UL_SHORT_SIZE_IN_BYTES);
    U16AtOfLE(s, |pre|, v);
  }

  /** Packing a two-byte read gives back the two bytes it read. */
  lemma U16AtPacks(s: seq<byte>, off: nat)
    requires off + UL_SHORT_SIZE_IN_BYTES <= |s|
    ensures LE(U16At(s, off), UL_SHORT_SIZE_IN_BYTES) == s[off..off + UL_SHORT_SIZE_IN_BYTES]
  {
    FromLEAtSlice(s, off, UL_SHORT_SIZE_IN_BYTES);
    LEOfFromLE(s[off..off + UL_SHORT_SIZE_IN_BYTES]);
  }

  /** Zero packs to zero bytes. */
  lemma {:induction false} LEZero(n: nat)
    ensures LE(0, n) == Zeros(n)
  {
    if n > 0 {
      LEZero(n - 1);
      assert Zeros(n) == [0] + Zeros(n - 1);
    }
  }

  /** `struct.pack_into`/slice assignment of `data` at `off` in a buffer that is long enough: only those bytes change. */
  function WriteAt(buf: seq<byte>, off: nat, data: seq<byte>): (r: seq<byte>)
    requires off + |data| <= |buf|
    ensures |r| == |buf|
    ensures r[..off] == buf[..off]
    ensures r[off..off + |data|] == data
    ensures r[off + |data|..] == buf[off + |data|..]
  {
    buf[..off] + data + buf[off + |data|..]
  }

  /** Up to the end of the written range, the buffer is its old prefix followed by the data. */
  lemma WriteAtPrefix(buf: seq<byte>, off: nat, data: seq<byte>)
    requires off + |data| <= |buf|
    ensures WriteAt(buf, off, data)[..off + |data|] == buf[..off] + data
  {
  }

  /** Bytes outside the written range keep their values. */
  lemma WriteAtOutside(buf: seq<byte>, off: nat, data: seq<byte>, a: nat, b: nat)
    requires off + |data| <= |buf| && a <= b <= |buf|
    requires b <= off || off + |data| <= a
    ensures WriteAt(buf, off, data)[a..b] == buf[a..b]
  {
    var r := WriteAt(buf, off, data);
    if b <= off {
      assert r[a..b] == r[..off][a..b];
      assert buf[a..b] == buf[..off][a..b];
    } else {
      assert r[a..b] == r[off + |data|..][a - off - |data|..b - off - |data|];
      assert buf[a..b] == buf[off + |data|..][a - off - |data|..b - off - |data|];
    }
  }

  /** A Python slice index: negative counts from the end, and the result is cut back into `0..len`. */
  function PyIndex(i: int, len: nat): (r: nat)
    ensures r <= len
    ensures 0 <= i <= len ==> r == i
  {
    if i < 0 then (if i + len < 0 then 0 else i + len) else if i <= len then i else len
  }

  /** Python's `s[a:b]`: both bounds normalised, and a reversed range is empty. */
  function PySlice(s: seq<byte>, a: int, b: int): (r: seq<byte>)
    ensures 0 <= a <= b <= |s| ==> r == s[a..b]
    ensures 0 <= b <= a ==> r == []
    ensures 0 <= a <= |s| <= b ==> r == s[a..]
    ensures |s| <= a ==> r == []
  {
    var lo := PyIndex(a, |s|);
    var hi := PyIndex(b, |s|);
    if hi <= lo then [] else s[lo..hi]
  }

  /**
   * Python's `buf[lo:hi] = data` on a `bytearray`: the (clamped) slice is replaced by `data`, so the length changes
   * when their lengths differ.
   */
  function AssignSlice(buf: seq<byte>, lo: nat, hi: nat, data: seq<byte>): (r: seq<byte>)
    ensures lo <= hi <= |buf| ==> r == buf[..lo] + data + buf[hi..]
    ensures lo <= |buf| <= hi ==> r == buf[..lo] + data
    ensures |buf| <= lo ==> r == buf + data
  {
    var l := if lo <= |buf| then lo else |buf|;
    var h := if hi > |buf| then |buf| else if hi < l then l else hi;
    buf[..l] + data + buf[h..]
  }

  /** `buf[off:off + len(data)] = data` (and `struct.pack_into`) for data that fits. */
  method PackInto(buf: array<byte>, off: nat, data: seq<byte>)
    requires off + |data| <= buf.Length
    modifies buf
    ensures buf[..] == WriteAt(old(buf[..]), off, data)
  {
    forall j | 0 <= j < |data| {
      buf[off + j] := data[j];
    }
  }
}
