/**
 The machine-level vocabulary of grpc-c: bytes, 32-bit integers with C's
 conversions written out, and in-place writes into a byte buffer.
 */
module Machine {

  type Byte = x: int | 0 <= x < 0x100
  type U32 = x: int | 0 <= x < 0x1_0000_0000
  type Int32 = x: int | -0x8000_0000 <= x < 0x8000_0000

  const INT_MAX := 0x7FFF_FFFF
  const TWO32 := 0x1_0000_0000

  datatype Option<+T> = None | Some(value: T)

  /** Conversion to `int32_t`: the representative of `x` modulo 2^32 in the signed range. */
  function ToInt32(x: int): (r: Int32)
    ensures -0x8000_0000 <= x <= INT_MAX ==> r == x
    ensures x >= 0 ==> r <= x
    ensures INT_MAX < x < TWO32 ==> r < 0
  {
    var m := x % TWO32;
    if m <= INT_MAX then m else m - TWO32
  }

  /** Nothing but the residue modulo 2^32 survives the conversion, and all of it does. */
  lemma ToInt32Congruent(x: int)
    ensures ToInt32(x) % TWO32 == x % TWO32
  {
  }

  function Pow2(k: nat): (r: nat)
    ensures r > 0
  {
    if k == 0 then 1 else 2 * Pow2(k - 1)
  }

  /** The contents of a buffer after `bytes` have been written at offset `off`. */
  ghost function Overwrite(buffer: seq<Byte>, off: nat, bytes: seq<Byte>): (r: seq<Byte>)
    requires off + |bytes| <= |buffer|
    ensures |r| == |buffer|
  {
    buffer[..off] + bytes + buffer[off + |bytes|..]
  }

  /** The part of `bytes` that fits in `len`: what a byte-by-byte writer leaves behind. */
  ghost function Fit(bytes: seq<Byte>, len: nat): (r: seq<Byte>)
    ensures |r| == if |bytes| <= len then |bytes| else len
  {
    if |bytes| <= len then bytes else bytes[..len]
  }

  /** Nothing before `off` and nothing from `off + len` on differs. */
  ghost predicate SameOutside(a: seq<Byte>, b: seq<Byte>, off: nat, len: nat)
    requires |a| == |b| && off + len <= |a|
  {
    a[..off] == b[..off] && a[off + len..] == b[off + len..]
  }

  /** Byte by byte: the written run where it was written, the old contents elsewhere. */
  lemma OverwriteAt(buffer: seq<Byte>, off: nat, bytes: seq<Byte>, i: nat)
    requires off + |bytes| <= |buffer| && i < |buffer|
    ensures Overwrite(buffer, off, bytes)[i] == if off <= i < off + |bytes| then bytes[i - off] else buffer[i]
  {
  }

  lemma OverwriteInside(buffer: seq<Byte>, pos: nat, bytes: seq<Byte>, off: nat, len: nat)
    requires off <= pos && pos + |bytes| <= off + len <= |buffer|
    ensures SameOutside(Overwrite(buffer, pos, bytes), buffer, off, len)
  {
  }

  lemma OverwriteNothing(buffer: seq<Byte>, off: nat)
    requires off <= |buffer|
    ensures Overwrite(buffer, off, []) == buffer
  {
  }

  lemma FitPrefix(b: Byte, bytes: seq<Byte>, len: nat)
    requires len > 0
    ensures Fit([b] + bytes, len) == [b] + Fit(bytes, len - 1)
  {
  }

  /** Writing two adjacent runs is writing their concatenation. */
  lemma OverwriteAppend(buffer: seq<Byte>, off: nat, xs: seq<Byte>, ys: seq<Byte>)
    requires off + |xs| + |ys| <= |buffer|
    ensures Overwrite(Overwrite(buffer, off, xs), off + |xs|, ys) == Overwrite(buffer, off, xs + ys)
  {
    var once := Overwrite(buffer, off, xs);
    assert once[..off + |xs|] == buffer[..off] + xs;
    assert once[off + |xs| + |ys|..] == buffer[off + |xs| + |ys|..];
  }

  /** Stores one byte just behind the run written so far. */
  method Store(output: array<Byte>, pos: nat, b: Byte, ghost before: seq<Byte>, ghost done: seq<Byte>)
    requires |before| == output.Length && |done| <= pos < output.Length
    requires output[..] == Overwrite(before, pos - |done|, done)
    modifies output
    ensures output[..] == Overwrite(before, pos - |done|, done + [b])
  {
    output[pos] := b;
  }

  /** `memcpy` into the buffer. */
  method CopyBytes(output: array<Byte>, pos: nat, bytes: seq<Byte>)
    requires pos + |bytes| <= output.Length
    modifies output
    ensures output[..] == Overwrite(old(output[..]), pos, bytes)
  {
    forall i | 0 <= i < |bytes| {
      output[pos + i] := bytes[i];
    }
  }

  /** The C string at the start of a buffer: everything before the first NUL. */
  function CString(s: seq<Byte>): (r: seq<Byte>)
    ensures r <= s && 0 !in r
    ensures |r| < |s| ==> s[|r|] == 0
    ensures 0 !in s ==> r == s
  {
    if s == [] || s[0] == 0 then [] else [s[0]] + CString(s[1..])
  }
}
