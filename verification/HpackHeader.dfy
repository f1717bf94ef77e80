/**
 HPACK literal header fields without indexing (sections 5.2 and 6.2.2 of
 RFC 7541): a type byte, then name and value, each behind its length.
 */
module HpackHeader {
  import opened Machine
  import opened HpackInteger

  /** Worst case the encoder reserves: the type byte and two five-byte lengths. */
  const RESERVED := 11

  /** A string length passed as `uint32_t`, in front of the string. */
  function EncodeString(s: seq<Byte>): seq<Byte> {
    Encode(|s| % TWO32, 7) + s
  }

  function EncodeHeader(name: seq<Byte>, value: seq<Byte>): seq<Byte> {
    [0] + EncodeString(name) + EncodeString(value)
  }

  /** A length is passed as `uint32_t`: of a string of 2^32 bytes or more only the residue is written. */
  lemma LengthWraps(s: seq<Byte>, n: U32)
    requires (|s| - n) % TWO32 == 0
    ensures EncodeString(s) == Encode(n, 7) + s
  {
    hide Encode;
    assert |s| == n + (|s| - n) / TWO32 * TWO32;
  }

  datatype Text = Text(bytes: seq<Byte>, used: nat)

  lemma LengthSound(s: seq<Byte>)
    requires Decode(s, 7).Some?
    ensures var d := Decode(s, 7).value; 1 <= d.used <= |s| && |Encode(d.value, 7)| <= d.used
  {
    assert s != [];
    ShiftValues();
    hide Decode, Encode, Pow2;
    IntegerDecodeSound(s, 7, s[0] / 128, s[0] % 128);
  }

  /** A length-prefixed string at the start of `s`. */
  function ParseString(s: seq<Byte>): (r: Option<Text>)
    ensures r.Some? ==> 1 <= r.value.used <= |s| && |r.value.bytes| < TWO32
  {
    match Decode(s, 7)
    case None => None
    case Some(n) =>
      LengthSound(s);
      if n.used + n.value > |s| then None
      else Some(Text(s[n.used..n.used + n.value], n.used + n.value))
  }

  datatype Header = Header(key: seq<Byte>, value: seq<Byte>, used: nat)

  /** A header at the start of `s`; the type byte is skipped unread. */
  function ParseHeader(s: seq<Byte>): (r: Option<Header>)
    ensures r.Some? ==> 3 <= r.value.used <= |s|
  {
    if |s| < 2 then None
    else match ParseString(s[1..])
      case None => None
      case Some(k) =>
        match ParseString(s[1 + k.used..])
        case None => None
        case Some(v) => Some(Header(k.bytes, v.bytes, 1 + k.used + v.used))
  }

  // ----- round trip and its converse -----

  /** `p` is a way of writing the length `n` in front of `rest`, the encoder's or any other that the decoder takes. */
  ghost predicate Announces(p: seq<Byte>, n: nat, rest: seq<Byte>) {
    n < TWO32 && Decode(p + rest, 7) == Some(Integer(n, |p|))
  }

  lemma StringAccepted(p: seq<Byte>, s: seq<Byte>, rest: seq<Byte>)
    requires Announces(p, |s|, s + rest)
    ensures ParseString(p + (s + rest)) == Some(Text(s, |p| + |s|))
  {
    hide Decode;
    var input := p + (s + rest);
    assert input[|p|..|p| + |s|] == s;
  }

  /** The converse: whatever is accepted is a length, as many bytes, and what follows. */
  lemma StringSplits(input: seq<Byte>)
    requires ParseString(input).Some?
    ensures var t := ParseString(input).value; var n := t.used - |t.bytes|;
      0 <= n && Announces(input[..n], |t.bytes|, t.bytes + input[t.used..]) && input == input[..n] + (t.bytes + input[t.used..])
  {
    hide Decode;
    var t := ParseString(input).value;
    var n := t.used - |t.bytes|;
    assert input == input[..n] + (t.bytes + input[t.used..]);
  }

  lemma StringRoundTrip(s: seq<Byte>, rest: seq<Byte>)
    requires |s| < TWO32
    ensures ParseString(EncodeString(s) + rest) == Some(Text(s, |EncodeString(s)|))
  {
    hide Decode, LowBits, Groups;
    var e := Encode(|s|, 7);
    ShiftValues();
    IntegerRoundTrip(|s|, 7, 0, e[0], s + rest);
    assert EncodeString(s) + rest == e + (s + rest) == [e[0]] + e[1..] + (s + rest);
    StringAccepted(e, s, rest);
  }

  /** The parts of an accepted header: the type byte, the lengths as written, the strings, and what follows. */
  datatype Layout = Layout(kind: Byte, nameLength: seq<Byte>, name: seq<Byte>, valueLength: seq<Byte>, value: seq<Byte>, rest: seq<Byte>)

  function Bytes(l: Layout): seq<Byte> {
    [l.kind] + (l.nameLength + (l.name + (l.valueLength + (l.value + l.rest))))
  }

  ghost predicate WellFormed(l: Layout) {
    && Announces(l.nameLength, |l.name|, l.name + (l.valueLength + (l.value + l.rest)))
    && Announces(l.valueLength, |l.value|, l.value + l.rest)
  }

  /** Every such arrangement is accepted, with any type byte and however its lengths are written. */
  lemma HeaderAccepted(l: Layout)
    requires WellFormed(l)
    ensures ParseHeader(Bytes(l))
      == Some(Header(l.name, l.value, 1 + |l.nameLength| + |l.name| + |l.valueLength| + |l.value|))
  {
    hide ParseString, Announces;
    var s, tail := Bytes(l), l.valueLength + (l.value + l.rest);
    StringAccepted(l.nameLength, l.name, tail);
    StringAccepted(l.valueLength, l.value, l.rest);
    LengthWritten(l.nameLength, |l.name|, l.name + tail);
    assert s[1..] == l.nameLength + (l.name + tail);
    assert s[1 + |l.nameLength| + |l.name|..] == tail;
  }

  lemma LengthWritten(p: seq<Byte>, n: nat, rest: seq<Byte>)
    requires Announces(p, n, rest)
    ensures p != []
  {
    hide Decode;
    LengthSound(p + rest);
  }

  /** And nothing else is: an accepted input is such an arrangement. */
  lemma HeaderSplits(s: seq<Byte>) returns (l: Layout)
    requires ParseHeader(s).Some?
    ensures var h := ParseHeader(s).value;
      WellFormed(l) && s == Bytes(l) && l.name == h.key && l.value == h.value && |l.rest| == |s| - h.used
  {
    hide ParseString, Announces;
    var k := ParseString(s[1..]).value;
    var at := 1 + k.used;
    var v := ParseString(s[at..]).value;
    StringSplits(s[1..]);
    StringSplits(s[at..]);
    assert s[1..][k.used..] == s[at..];
    l := Layout(s[0], s[1..][..k.used - |k.bytes|], k.bytes, s[at..][..v.used - |v.bytes|], v.bytes, s[at..][v.used..]);
  }

  /** The encoder's type byte is 0; whatever it is and whatever follows, a header decodes to itself. */
  lemma HeaderRoundTrip(name: seq<Byte>, value: seq<Byte>, typeByte: Byte, rest: seq<Byte>)
    requires |name| < TWO32 && |value| < TWO32
    ensures EncodeHeader(name, value)[0] == 0
    ensures ParseHeader([typeByte] + EncodeHeader(name, value)[1..] + rest)
         == Some(Header(name, value, |EncodeHeader(name, value)|))
  {
    hide Decode, Encode, EncodeString, ParseString;
    var s := [typeByte] + EncodeHeader(name, value)[1..] + rest;
    var n, v := EncodeString(name), EncodeString(value);
    assert s[1..] == n + (v + rest);
    assert s[1 + |n|..] == v + rest;
    StringRoundTrip(name, v + rest);
    StringRoundTrip(value, rest);
  }

  lemma ParsedStringNotLonger(s: seq<Byte>)
    requires ParseString(s).Some?
    ensures |EncodeString(ParseString(s).value.bytes)| <= ParseString(s).value.used
  {
    hide Decode, Encode, LowBits, GroupSum, MaxPrefix;
    LengthSound(s);
    assert |ParseString(s).value.bytes| == Decode(s, 7).value.value;
  }

  /** The encoder's form is the shortest one: no accepted header is shorter than its re-encoding. */
  lemma ParsedHeaderNotLonger(s: seq<Byte>)
    requires ParseHeader(s).Some?
    ensures var h := ParseHeader(s).value; |EncodeHeader(h.key, h.value)| <= h.used
    ensures var h := ParseHeader(s).value; |h.key| < TWO32 && |h.value| < TWO32
  {
    hide ParseString, EncodeString;
    ParsedStringNotLonger(s[1..]);
    ParsedStringNotLonger(s[1 + ParseString(s[1..]).value.used..]);
  }

  // ----- the reservation -----

  /** A 7-bit-prefix length takes 5 bytes at most below 2^28 + 127, 4 at most below 2^21 + 127, never more than 6. */
  lemma LengthBytes(n: U32)
    ensures |Encode(n, 7)| <= 4 <==> n < 0x20_0000 + 127
    ensures |Encode(n, 7)| <= 5 <==> n < 0x1000_0000 + 127
    ensures |Encode(n, 7)| <= 6
  {
    ShiftValues();
    if n >= 127 {
      GroupsLength(n - 127, 3);
      GroupsLength(n - 127, 4);
      FiveGroups(n - 127);
    }
  }

  /** An empty value behind a name of 2^32 - 8 bytes. */
  lemma LongestHeader(name: seq<Byte>)
    requires |name| == TWO32 - 8
    ensures |EncodeHeader(name, [])| == TWO32
  {
    hide Groups;
    LengthBytes(TWO32 - 8);
  }

  lemma HeaderLength(name: seq<Byte>, value: seq<Byte>)
    requires |name| < TWO32 && |value| < TWO32
    ensures |EncodeHeader(name, value)| == 1 + |Encode(|name|, 7)| + |name| + |Encode(|value|, 7)| + |value|
  {
    hide Encode;
  }

  /** Exactly when the reserved space is less than the header takes. */
  lemma ReservationShort(name: seq<Byte>, value: seq<Byte>)
    requires |name| < TWO32 && |value| < TWO32
    ensures |EncodeHeader(name, value)| > RESERVED + |name| + |value| <==>
      || (|name| >= 0x1000_0000 + 127 && |value| >= 0x20_0000 + 127)
      || (|name| >= 0x20_0000 + 127 && |value| >= 0x1000_0000 + 127)
  {
    hide Encode, EncodeHeader;
    HeaderLength(name, value);
    LengthBytes(|name|);
    LengthBytes(|value|);
  }

  // ----- the methods -----

  /** A length and its string, written at `pos` in a buffer of `len` bytes: both bounds tests, one copy. */
  method WriteString(s: seq<Byte>, output: array<Byte>, off: nat, pos: nat, len: nat) returns (r: int)
    requires off + len <= output.Length && pos <= len
    modifies output
    ensures if pos + |EncodeString(s)| <= len
      then r == pos + |EncodeString(s)| && output[..] == Overwrite(old(output[..]), off + pos, EncodeString(s))
      else r == -1
    ensures SameOutside(output[..], old(output[..]), off, len)
  {
    hide Encode, Overwrite;
    ghost var before, e := output[..], Encode(|s| % TWO32, 7);
    OverwriteInside(before, off + pos, Fit(e, len - pos), off, len);
    var lenBytes := HpackInteger.EncodeInteger(|s| % TWO32, 7, output, off + pos, len - pos);
    if lenBytes < 0 { return -1; }
    if pos + lenBytes + |s| > len { return -1; }
    OverwriteAppend(before, off + pos, e, s);
    OverwriteInside(before, off + pos, e + s, off, len);
    CopyBytes(output, off + pos + lenBytes, s);
    return pos + lenBytes + |s|;
  }

  /** `name` and `value` are what lies at the pointers; the strings end at the first NUL. */
  method EncodeLiteralHeader(name: seq<Byte>, value: seq<Byte>, output: array<Byte>, off: nat, len: nat)
    returns (r: int)
    requires off + len <= output.Length
    modifies output
    ensures var n, v := CString(name), CString(value);
      if len >= RESERVED + |n| + |v| && len >= |EncodeHeader(n, v)|
      then r == ToInt32(|EncodeHeader(n, v)|)
        && output[..] == Overwrite(old(output[..]), off, EncodeHeader(n, v))
      else r == -1
    ensures len < RESERVED + |CString(name)| + |CString(value)| ==> output[..] == old(output[..])
    ensures SameOutside(output[..], old(output[..]), off, len)
  {
    hide EncodeString, CString, ToInt32, Overwrite;
    var n, v := CString(name), CString(value);
    if len < RESERVED + |n| + |v| {
      return -1;
    }
    ghost var before := output[..];
    OverwriteInside(before, off, [0], off, len);
    CopyBytes(output, off, [0]);
    var pos := WriteString(n, output, off, 1, len);
    if pos < 0 { return -1; }
    OverwriteAppend(before, off, [0], EncodeString(n));
    pos := WriteString(v, output, off, pos, len);
    if pos < 0 { return -1; }
    OverwriteAppend(before, off, [0] + EncodeString(n), EncodeString(v));
    return ToInt32(pos);
  }

  method DecodeString(input: seq<Byte>, pos: nat) returns (r: int, s: seq<Byte>)
    requires pos <= |input|
    ensures match ParseString(input[pos..])
      case None => r == -1
      case Some(t) => r == pos + t.used && s == t.bytes
  {
    hide Decode;
    var lenBytes, n := HpackInteger.DecodeInteger(input[pos..], 7);
    if lenBytes < 0 { return -1, []; }
    LengthSound(input[pos..]);
    if pos + lenBytes + n > |input| { return -1, []; }
    return pos + lenBytes + n, input[pos + lenBytes..pos + lenBytes + n];
  }

  method DecodeLiteralHeader(input: seq<Byte>) returns (r: int, key: seq<Byte>, value: seq<Byte>)
    ensures match ParseHeader(input)
      case None => r == -1
      case Some(h) => r == ToInt32(h.used) && key == h.key && value == h.value
  {
    hide ParseString, ToInt32;
    if |input| < 2 { return -1, [], []; }
    var pos: int;
    pos, key := DecodeString(input, 1);
    if pos < 0 { return -1, [], []; }
    pos, value := DecodeString(input, pos);
    if pos < 0 { return -1, [], []; }
    return ToInt32(pos), key, value;
  }
}
