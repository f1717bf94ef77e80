/** Whole metadata lists in HPACK: header after header, nothing between them. */
module HpackMetadata {
  import opened Machine
  import opened HpackHeader
  import opened Metadata

  function EncodeEntry(e: Entry): seq<Byte> {
    EncodeHeader(CString(e.key), CString(e.value))
  }

  function EncodeList(md: seq<Entry>): seq<Byte> {
    if md == [] then [] else EncodeEntry(md[0]) + EncodeList(md[1..])
  }

  /** The list a byte string splits into, when it splits into headers up to its very end. */
  function ParseList(s: seq<Byte>): Option<seq<Entry>>
    decreases |s|
  {
    if s == [] then Some([])
    else match ParseHeader(s)
      case None => None
      case Some(h) =>
        if h.used > INT_MAX then None
        else match ParseList(s[h.used..])
          case None => None
          case Some(rest) => Some([Decoded(h)] + rest)
  }

  function Decoded(h: Header): Entry {
    Entry(h.key, h.value, |CString(h.value)|)
  }

  // ----- round trip -----

  /** What reaches the other side of an entry: the C strings of key and value. */
  function Received(e: Entry): Entry {
    Entry(CString(e.key), CString(e.value), |CString(e.value)|)
  }

  function ReceivedAll(md: seq<Entry>): (r: seq<Entry>)
    ensures |r| == |md| && forall i :: 0 <= i < |r| ==> r[i] == Received(md[i])
  {
    seq(|md|, i requires 0 <= i < |md| => Received(md[i]))
  }

  /** Headers one after the other, of strings that may contain NUL. */
  function RawBytes(es: seq<Entry>): seq<Byte> {
    if es == [] then [] else EncodeHeader(es[0].key, es[0].value) + RawBytes(es[1..])
  }

  ghost predicate RawBelow(es: seq<Entry>, limit: nat) {
    forall i :: 0 <= i < |es| ==> |EncodeHeader(es[i].key, es[i].value)| < limit
  }

  /**
   The bytes of any headers below 2^32 bytes are read back as those headers, whole values included,
   each with the length of its C string, if and only if every header's length is an `int`.
   */
  lemma {:induction false} RawListRead(es: seq<Entry>)
    requires RawBelow(es, TWO32) && forall i :: 0 <= i < |es| ==> es[i].valueLength == |CString(es[i].value)|
    ensures ParseList(RawBytes(es)) == if RawBelow(es, INT_MAX + 1) then Some(es) else None
  {
    hide ParseHeader, EncodeHeader, CString;
    if es != [] {
      var rest := RawBytes(es[1..]);
      RawListRead(es[1..]);
      EntryRoundTrip(es[0].key, es[0].value, rest);
      assert RawBytes(es)[|EncodeHeader(es[0].key, es[0].value)|..] == rest;
      assert [es[0]] + es[1..] == es;
    }
  }

  /** Decoding exactly the bytes of a list that fits an `int` gives the list back, values cut at their first NUL. */
  lemma {:induction false} MetadataRoundTrip(md: seq<Entry>)
    requires |EncodeList(md)| <= INT_MAX
    ensures ParseList(EncodeList(md)) == Some(ReceivedAll(md))
  {
    hide ParseHeader, EncodeHeader, CString;
    if md != [] {
      var k, v, rest := CString(md[0].key), CString(md[0].value), EncodeList(md[1..]);
      MetadataRoundTrip(md[1..]);
      EntryRoundTrip(k, v, rest);
      assert EncodeList(md)[|EncodeHeader(k, v)|..] == rest;
      assert [Received(md[0])] + ReceivedAll(md[1..]) == ReceivedAll(md);
    } else {
      assert ReceivedAll(md) == [];
    }
  }

  lemma EntryRoundTrip(k: seq<Byte>, v: seq<Byte>, rest: seq<Byte>)
    requires |EncodeHeader(k, v)| < TWO32
    ensures ParseHeader(EncodeHeader(k, v) + rest) == Some(Header(k, v, |EncodeHeader(k, v)|))
  {
    hide ParseHeader, EncodeString;
    HeaderFits(k, v);
    HeaderRoundTrip(k, v, 0, rest);
    assert [0] + EncodeHeader(k, v)[1..] == EncodeHeader(k, v);
  }

  lemma HeaderFits(k: seq<Byte>, v: seq<Byte>)
    ensures |EncodeHeader(k, v)| > |k| + |v|
  {
  }

  ghost predicate NulFree(md: seq<Entry>) {
    forall i :: 0 <= i < |md| ==> 0 !in md[i].key && 0 !in md[i].value && md[i].valueLength == |md[i].value|
  }

  /** On NUL-free metadata the encoding is injective. */
  lemma EncodingInjective(a: seq<Entry>, b: seq<Entry>)
    requires NulFree(a) && NulFree(b) && EncodeList(a) == EncodeList(b)
    requires |EncodeList(a)| <= INT_MAX
    ensures a == b
  {
    hide ParseList, EncodeList;
    MetadataRoundTrip(a);
    MetadataRoundTrip(b);
    assert ReceivedAll(a) == a && ReceivedAll(b) == b;
  }

  lemma CutNotLonger(k: seq<Byte>, v: seq<Byte>)
    requires |k| < TWO32 && |v| < TWO32
    ensures |EncodeHeader(CString(k), CString(v))| <= |EncodeHeader(k, v)|
  {
    hide HpackInteger.Encode, CString, EncodeHeader;
    HeaderLength(k, v);
    HeaderLength(CString(k), CString(v));
    HpackInteger.EncodeMonotone(|CString(k)|, |k|, 7);
    HpackInteger.EncodeMonotone(|CString(v)|, |v|, 7);
  }

  /** An accepted input has at most a third as many headers as bytes, and re-encodes to no more bytes. */
  lemma {:induction false} ParsedListShrinks(s: seq<Byte>)
    requires ParseList(s).Some?
    ensures var md := ParseList(s).value; |md| <= |s| / 3 && |EncodeList(md)| <= |s|
    decreases |s|
  {
    hide ParseHeader, EncodeHeader, CString;
    if s != [] {
      var h, md := ParseHeader(s).value, ParseList(s).value;
      ParsedListShrinks(s[h.used..]);
      ParsedHeaderNotLonger(s);
      assert md[1..] == ParseList(s[h.used..]).value;
      CutNotLonger(h.key, h.value);
    }
  }

  /** Re-encoding whatever was accepted gives a canonical form: never longer, and read back as the same list. */
  lemma ParsedListCanonical(s: seq<Byte>)
    requires |s| <= INT_MAX && ParseList(s).Some?
    ensures var md := ParseList(s).value;
      && |EncodeList(md)| <= |s|
      && ParseList(EncodeList(md)) == Some(ReceivedAll(md))
      && (NulFree(md) ==> ReceivedAll(md) == md)
  {
    hide ParseList, EncodeList;
    ParsedListShrinks(s);
    MetadataRoundTrip(ParseList(s).value);
  }

  // ----- buffer space -----

  ghost function ReservedFor(e: Entry): nat {
    RESERVED + |CString(e.key)| + |CString(e.value)|
  }

  /** Every header finds its reservation, and its bytes, in what the ones before it left. */
  ghost predicate Fits(md: seq<Entry>, len: int) {
    md != [] ==>
      && len >= ReservedFor(md[0]) && len >= |EncodeEntry(md[0])|
      && Fits(md[1..], len - |EncodeEntry(md[0])|)
  }

  ghost function TotalReserved(md: seq<Entry>): nat {
    if md == [] then 0 else ReservedFor(md[0]) + TotalReserved(md[1..])
  }

  /** A list of ordinary strings fits in the sum of its reservations. */
  lemma {:induction false} ReservationsSuffice(md: seq<Entry>, len: nat)
    requires forall i :: 0 <= i < |md| ==> |md[i].key| < 0x1000_0000 + 127 && |md[i].value| < 0x1000_0000 + 127
    requires len >= TotalReserved(md)
    ensures Fits(md, len) && |EncodeList(md)| <= TotalReserved(md)
  {
    hide EncodeHeader, CString;
    if md != [] {
      ReservationShort(CString(md[0].key), CString(md[0].value));
      ReservationsSuffice(md[1..], len - |EncodeEntry(md[0])|);
    }
  }

  // ----- the loops -----

  ghost predicate HeadersBelow(md: seq<Entry>, limit: int) {
    forall i :: 0 <= i < |md| ==> |EncodeEntry(md[i])| < limit
  }

  lemma {:induction false} EncodeListSnoc(md: seq<Entry>, k: nat)
    requires k < |md|
    ensures EncodeList(md[..k + 1]) == EncodeList(md[..k]) + EncodeEntry(md[k])
  {
    hide EncodeEntry;
    if k > 0 {
      EncodeListSnoc(md[1..], k - 1);
      assert md[..k + 1][1..] == md[1..][..k] && md[..k][1..] == md[1..][..k - 1];
    } else {
      assert md[..1] == [md[0]] && md[..0] == [] && md[..1][1..] == [];
    }
  }

  lemma {:induction false} FitsFrom(md: seq<Entry>, k: nat, len: int)
    requires k <= |md|
    requires forall i :: 0 <= i < k ==> FitsAt(md, i, len)
    ensures Fits(md, len) <==> Fits(md[k..], len - |EncodeList(md[..k])|)
  {
    hide EncodeEntry, ReservedFor;
    if k > 0 {
      FitsFrom(md, k - 1, len);
      EncodeListSnoc(md, k - 1);
      assert FitsAt(md, k - 1, len);
      assert md[k - 1..][1..] == md[k..] && md[k - 1..][0] == md[k - 1];
    } else {
      assert md[0..] == md && md[..0] == [];
    }
  }

  ghost predicate FitsAt(md: seq<Entry>, i: nat, len: int)
    requires i < |md|
  {
    var left := len - |EncodeList(md[..i])|;
    left >= ReservedFor(md[i]) && left >= |EncodeEntry(md[i])|
  }

  lemma {:induction false} FitsUpTo(md: seq<Entry>, k: nat, len: int)
    requires k <= |md| && Fits(md, len)
    ensures forall i :: 0 <= i < k ==> FitsAt(md, i, len)
  {
    hide EncodeEntry, ReservedFor;
    if k > 0 {
      FitsUpTo(md, k - 1, len);
      FitsFrom(md, k - 1, len);
      assert md[k - 1..][0] == md[k - 1];
    }
  }

  /** What `Fits` comes to: behind the headers before it, each finds 11 bytes and its strings, and its encoding. */
  lemma FitsIff(md: seq<Entry>, len: int)
    ensures Fits(md, len) <==> forall i :: 0 <= i < |md| ==>
      var left := len - |EncodeList(md[..i])|;
      left >= 11 + |CString(md[i].key)| + |CString(md[i].value)| && left >= |EncodeEntry(md[i])|
  {
    hide Fits, EncodeEntry, CString, EncodeList;
    if Fits(md, len) {
      FitsUpTo(md, |md|, len);
    } else if forall i :: 0 <= i < |md| ==> FitsAt(md, i, len) {
      FitsFrom(md, |md|, len);
      NothingFits(md, len - |EncodeList(md[..|md|])|);
    }
    assert forall i :: 0 <= i < |md| ==> (FitsAt(md, i, len) <==>
      len - |EncodeList(md[..i])| >= 11 + |CString(md[i].key)| + |CString(md[i].value)|
      && len - |EncodeList(md[..i])| >= |EncodeEntry(md[i])|);
  }

  lemma NothingFits(md: seq<Entry>, len: int)
    ensures Fits(md[|md|..], len)
  {
  }

  /**
   For headers below 2^32 bytes: success exactly when every header finds its reservation and its
   length is an `int`; then the buffer holds the encoding and nothing behind it is touched.
   */
  method EncodeMetadata(md: seq<Entry>, output: array<Byte>) returns (r: int)
    modifies output
    ensures HeadersBelow(md, TWO32) ==>
      if Fits(md, output.Length) && HeadersBelow(md, INT_MAX + 1)
      then |EncodeList(md)| <= output.Length && r == ToInt32(|EncodeList(md)|)
        && output[..] == Overwrite(old(output[..]), 0, EncodeList(md))
      else r == -1
  {
    hide EncodeHeader, CString, Overwrite, ToInt32;
    ghost var before, exact := output[..], HeadersBelow(md, TWO32);
    var pos := 0;
    OverwriteNothing(before, 0);
    for i := 0 to |md|
      invariant 0 <= pos <= output.Length
      invariant exact ==> pos == |EncodeList(md[..i])| && output[..] == Overwrite(before, 0, EncodeList(md[..i]))
      invariant exact ==> forall j :: 0 <= j < i ==> FitsAt(md, j, output.Length) && |EncodeEntry(md[j])| <= INT_MAX
    {
      var bytes := EncodeLiteralHeader(md[i].key, md[i].value, output, pos, output.Length - pos);
      if exact {
        FitsFrom(md, i, output.Length);
        EncodeListSnoc(md, i);
        assert |EncodeEntry(md[i])| < TWO32;
      }
      if bytes < 0 { return -1; }
      if exact {
        OverwriteAppend(before, 0, EncodeList(md[..i]), EncodeEntry(md[i]));
      }
      pos := pos + bytes;
    }
    assert md[..|md|] == md;
    if exact { FitsFrom(md, |md|, output.Length); }
    return ToInt32(pos);
  }

  /**
   The decoding loop computes the recursive split, and leaves the array at the least capacity of
   the form 16 * 2^k. An input of 2^32 bytes or more could hold a header whose length, returned
   as an `int`, is 0: there the source's loop would not advance.
   */
  method DecodeMetadata(input: seq<Byte>) returns (r: int, metadata: MetadataArray)
    requires |input| < TWO32
    ensures fresh(metadata) && metadata.Valid() && metadata.initial == DEFAULT_CAPACITY
    ensures match ParseList(input)
      case None => r == -1
      case Some(md) =>
        && r == 0 && metadata.Contents() == md && |md| <= |input| / 3
        && metadata.capacity == LeastCapacity(16, |md|)
  {
    hide ParseHeader, CString, ParseList, LeastCapacity;
    metadata := new MetadataArray(DEFAULT_CAPACITY);
    var pos := 0;
    assert input[0..] == input && (ParseList(input).Some? ==> [] + ParseList(input).value == ParseList(input).value);
    while pos < |input|
      invariant 0 <= pos <= |input|
      invariant fresh(metadata.metadata) && metadata.Valid() && metadata.initial == DEFAULT_CAPACITY
      invariant ParseList(input) == Prepend(metadata.Contents(), ParseList(input[pos..]))
    {
      ParseListAt(input, pos);
      var bytes, key, value := DecodeLiteralHeader(input[pos..]);
      if bytes < 0 {
        return -1, metadata;
      }
      ghost var before := metadata.Contents();
      var entry := Entry(key, value, |CString(value)|);
      metadata.Append(entry);
      PrependAppend(before, [entry], ParseList(input[pos + bytes..]));
      pos := pos + bytes;
    }
    ParseListEnd(input, metadata.Contents());
    ParsedListShrinks(input);
    r := 0;
  }

  /** The `int` that the header decoder returns leaves the loop where it is. */
  predicate Stuck(s: seq<Byte>) {
    ParseHeader(s).Some? && ToInt32(ParseHeader(s).value.used) == 0
  }

  /** Exactly below 2^32 bytes of input is every decoded header sure to advance the loop. */
  lemma AdvanceIff(limit: nat)
    ensures (forall s: seq<Byte> :: |s| <= limit ==> !Stuck(s)) <==> limit < TWO32
  {
    hide ParseHeader, EncodeHeader;
    if limit >= TWO32 {
      var s := StuckHeader();
      assert Stuck(s);
    }
  }

  /** A header of exactly 2^32 bytes: an empty value behind a name of 2^32 - 8. */
  lemma StuckHeader() returns (s: seq<Byte>)
    ensures |s| == TWO32 && Stuck(s)
  {
    hide ParseHeader, EncodeString;
    var name: seq<Byte> := seq(TWO32 - 8, _ => 1);
    s := EncodeHeader(name, []);
    LongestHeader(name);
    HeaderRoundTrip(name, [], 0, []);
    assert [0] + s[1..] + [] == s;
  }

  lemma ParseListAt(input: seq<Byte>, pos: nat)
    requires pos < |input|
    ensures ParseList(input[pos..]) ==
      match ParseHeader(input[pos..])
      case None => None
      case Some(h) =>
        if h.used > INT_MAX then None else Prepend([Decoded(h)], ParseList(input[pos + h.used..]))
  {
    hide ParseHeader;
    var h := ParseHeader(input[pos..]);
    if h.Some? { assert input[pos..][h.value.used..] == input[pos + h.value.used..]; }
  }

  lemma ParseListEnd(input: seq<Byte>, md: seq<Entry>)
    ensures Prepend(md, ParseList(input[|input|..])) == Some(md)
  {
    assert input[|input|..] == [] && md + [] == md;
  }

  ghost function Prepend(xs: seq<Entry>, rest: Option<seq<Entry>>): Option<seq<Entry>> {
    if rest.None? then None else Some(xs + rest.value)
  }

  lemma PrependAppend(xs: seq<Entry>, ys: seq<Entry>, rest: Option<seq<Entry>>)
    ensures Prepend(xs, Prepend(ys, rest)) == Prepend(xs + ys, rest)
  {
    if rest.Some? { assert xs + (ys + rest.value) == (xs + ys) + rest.value; }
  }
}
