/**
 HPACK integers (section 5.1 of RFC 7541): an N-bit prefix followed, when the
 prefix is saturated, by 7-bit groups, least significant first.
 */
module HpackInteger {
  import opened Machine

  const MAX_PREFIX_BITS := 7
  const MAX_SHIFT := 28

  /** The largest value an N-bit prefix can hold: the all-ones prefix, which announces groups. */
  function MaxPrefix(prefixBits: nat): (r: nat)
    requires prefixBits <= MAX_PREFIX_BITS
    ensures r <= 127
  {
    Pow2Monotone(prefixBits, 7);
    Pow2Add7(0);
    Pow2(prefixBits) - 1
  }

  lemma Pow2Monotone(a: nat, b: nat)
    requires a <= b
    ensures Pow2(a) <= Pow2(b)
    decreases b - a
  {
    if a < b { Pow2Monotone(a + 1, b); }
  }

  /** The continuation bytes that represent `v`: the high bit marks that more follow. */
  function Groups(v: nat): (s: seq<Byte>)
    ensures |s| > 0
  {
    if v < 128 then [v] else [v % 128 + 128] + Groups(v / 128)
  }

  function Encode(v: U32, prefixBits: nat): (s: seq<Byte>)
    requires prefixBits <= MAX_PREFIX_BITS
    ensures |s| > 0
  {
    var m := MaxPrefix(prefixBits);
    if v < m then [v] else [m] + Groups(v - m)
  }

  /** The number RFC 7541 assigns to a run of groups. */
  function GroupSum(s: seq<Byte>): nat {
    if s == [] then 0 else s[0] % 128 + 128 * GroupSum(s[1..])
  }

  /** How far a group run extends: through its first byte without the high bit; 0 if there is none. */
  function Extent(s: seq<Byte>): (n: nat)
    ensures n <= |s|
    ensures n == 0 ==> forall i :: 0 <= i < |s| ==> s[i] >= 128
    ensures n > 0 ==> s[n - 1] < 128 && forall i :: 0 <= i < n - 1 ==> s[i] >= 128
  {
    if s == [] then 0
    else if s[0] < 128 then 1
    else var rest := Extent(s[1..]); if rest == 0 then 0 else rest + 1
  }

  /** What 32-bit arithmetic makes of at most five groups: a fifth keeps only its low four bits. */
  function KeptSum(s: seq<Byte>): nat
    requires |s| <= 5
  {
    if |s| == 5 then (var top: int := s[4] % 16; GroupSum(s[..4]) + top * 0x1000_0000) else GroupSum(s)
  }

  datatype Integer = Integer(value: U32, used: nat)

  /** The low `bits` bits of a number. */
  function LowBits(n: nat, bits: nat): (r: nat)
    ensures r < Pow2(bits)
    ensures n < Pow2(bits) ==> r == n
  {
    if bits == 0 then 0 else n % 2 + 2 * LowBits(n / 2, bits - 1)
  }

  /** Whatever stands above the low bits is masked off. */
  lemma {:induction false} LowBitsMask(q: nat, r: nat, bits: nat)
    requires r < Pow2(bits)
    ensures LowBits(q * Pow2(bits) + r, bits) == r
    decreases bits
  {
    if bits > 0 {
      var p := Pow2(bits - 1);
      Halves(q, p, r);
      LowBitsMask(q, r / 2, bits - 1);
    }
  }

  lemma Halves(q: nat, p: nat, r: nat)
    ensures (q * (2 * p) + r) / 2 == q * p + r / 2 && (q * (2 * p) + r) % 2 == r % 2
  {
    assert q * (2 * p) == 2 * (q * p);
  }

  /** The integer announced by a saturated prefix of value `m`: one test of the total, no loop. */
  function DecodeGroups(groups: seq<Byte>, m: nat): Option<Integer> {
    var n := Extent(groups);
    if n == 0 || n > 5 then None
    else
      var total := m + KeptSum(groups[..n]);
      if total >= TWO32 then None else Some(Integer(total, 1 + n))
  }

  /** Which inputs the decoder accepts, and with what result. */
  function Decode(s: seq<Byte>, prefixBits: nat): Option<Integer> {
    if s == [] || prefixBits > MAX_PREFIX_BITS then None
    else if LowBits(s[0], prefixBits) < MaxPrefix(prefixBits) then Some(Integer(LowBits(s[0], prefixBits), 1))
    else DecodeGroups(s[1..], MaxPrefix(prefixBits))
  }

  // ----- arithmetic of groups -----

  lemma Pow2Add7(k: nat)
    ensures Pow2(k + 7) == 128 * Pow2(k)
  {
    assert Pow2(k + 7) == 2 * Pow2(k + 6) && Pow2(k + 6) == 2 * Pow2(k + 5);
    assert Pow2(k + 5) == 2 * Pow2(k + 4) && Pow2(k + 4) == 2 * Pow2(k + 3);
    assert Pow2(k + 3) == 2 * Pow2(k + 2) && Pow2(k + 2) == 2 * Pow2(k + 1);
  }

  lemma ShiftValues()
    ensures Pow2(0) == 1 && Pow2(7) == 0x80 && Pow2(14) == 0x4000
    ensures Pow2(21) == 0x20_0000 && Pow2(28) == 0x1000_0000
  {
    Pow2Add7(0); Pow2Add7(7); Pow2Add7(14); Pow2Add7(21);
  }

  lemma Regroup(g: nat, p: nat)
    ensures 128 * (g * p) == g * (128 * p)
  {
  }

  lemma {:induction false} GroupSumSnoc(s: seq<Byte>, b: Byte)
    ensures GroupSum(s + [b]) == GroupSum(s) + b % 128 * Pow2(7 * |s|)
  {
    if s == [] {
      assert [b][1..] == [] && Pow2(0) == 1 && 7 * |s| == 0;
      assert s + [b] == [b];
      assert GroupSum([b]) == b % 128 + 128 * GroupSum([b][1..]);
    } else {
      var tail := s[1..];
      assert (s + [b])[1..] == tail + [b];
      GroupSumSnoc(tail, b);
      Pow2Add7(7 * |tail|);
      Regroup(b % 128, Pow2(7 * |tail|));
    }
  }

  lemma {:induction false} ShortSum(s: seq<Byte>)
    ensures GroupSum(s) < Pow2(7 * |s|)
  {
    if s != [] {
      ShortSum(s[1..]);
      assert 7 * |s| == 7 * |s[1..]| + 7;
      Pow2Add7(7 * |s[1..]|);
    }
  }

  lemma FiveGroupSum(s: seq<Byte>)
    requires |s| == 5
    ensures GroupSum(s) == KeptSum(s) + s[4] % 128 / 16 * TWO32
    ensures KeptSum(s) < TWO32
  {
    hide GroupSum, Pow2;
    assert s == s[..4] + [s[4]];
    GroupSumSnoc(s[..4], s[4]);
    ShortSum(s[..4]);
    ShiftValues();
    FifthGroup(s[4]);
  }

  /** A 7-bit group shifted into a 32-bit word. */
  function Shifted(g: nat, m: nat): nat {
    g * Pow2(m) % TWO32
  }

  /** A shift of at most 21 places loses nothing of a group. */
  lemma ShiftedBy(g: nat, m: nat, p: nat)
    requires g < 128 && Pow2(m) == p <= 0x20_0000
    ensures Shifted(g, m) == g * p
  {
    hide Pow2;
    assert 0 <= g * p <= 127 * 0x20_0000;
  }

  lemma ShiftedKeeps(g: nat, i: nat)
    requires g < 128 && i < 4
    ensures Shifted(g, 7 * i) == g * Pow2(7 * i)
  {
    hide Shifted, Pow2;
    ShiftValues();
    ShiftedBy(g, 7 * i, Pow2(7 * i));
  }

  /** 28 places up, a group of 7 bits keeps the low four and carries the rest out of the word. */
  lemma FifthGroup(b: Byte)
    ensures b % 128 * 0x1000_0000 == b % 16 * 0x1000_0000 + b % 128 / 16 * TWO32
  {
    assert b % 128 % 16 == b % 16;
  }

  lemma ShiftedFifth(b: Byte)
    ensures Shifted(b % 128, 28) == b % 16 * 0x1000_0000
  {
    hide Pow2;
    ShiftValues();
    FifthGroup(b);
  }

  /** The addition the decoder performs for one more group, with the shift done modulo 2^32. */
  lemma KeptSumSnoc(s: seq<Byte>, b: Byte)
    requires |s| <= 4
    ensures KeptSum(s + [b]) == KeptSum(s) + Shifted(b % 128, 7 * |s|)
  {
    hide Shifted, GroupSum, Pow2;
    if |s| == 4 {
      assert (s + [b])[..4] == s && (s + [b])[4] == b;
      ShiftedFifth(b);
    } else {
      GroupSumSnoc(s, b);
      ShiftedKeeps(b % 128, |s|);
    }
  }

  lemma {:induction false} GroupSumMonotone(s: seq<Byte>, k: nat)
    requires k <= |s|
    ensures GroupSum(s[..k]) <= GroupSum(s)
  {
    if k > 0 {
      GroupSumMonotone(s[1..], k - 1);
      assert s[..k][1..] == s[1..][..k - 1];
    }
  }

  lemma KeptSumMonotone(s: seq<Byte>, k: nat)
    requires k <= |s| <= 5
    ensures KeptSum(s[..k]) <= KeptSum(s)
  {
    if k == |s| {
      assert s[..k] == s;
    } else if |s| == 5 {
      GroupSumMonotone(s[..4], k);
      assert s[..4][..k] == s[..k];
    } else {
      GroupSumMonotone(s, k);
    }
  }

  // ----- the encoder's groups -----

  lemma GroupSumCons(b: Byte, rest: seq<Byte>)
    ensures GroupSum([b] + rest) == b as int % 128 + 128 * GroupSum(rest)
  {
    assert ([b] + rest)[1..] == rest;
  }

  lemma HeadGroup(v: nat)
    ensures (v % 128 + 128) % 128 == v % 128 && v == v % 128 + 128 * (v / 128)
  {
  }

  lemma {:induction false} GroupsMake(v: nat)
    ensures GroupSum(Groups(v)) == v
  {
    if v < 128 {
      GroupSumCons(v, []);
      assert Groups(v) == [v] + [];
    } else {
      GroupsMake(v / 128);
      HeadGroup(v);
      GroupSumCons(v % 128 + 128, Groups(v / 128));
      assert Groups(v) == [v % 128 + 128] + Groups(v / 128);
      hide Groups, GroupSum;
    }
  }

  lemma {:induction false} GroupsEnd(v: nat, rest: seq<Byte>)
    ensures Extent(Groups(v) + rest) == |Groups(v)|
  {
    if v >= 128 {
      GroupsEnd(v / 128, rest);
      assert (Groups(v) + rest)[1..] == Groups(v / 128) + rest;
    }
  }

  /** The groups of `v` make `v`, and end where they should whatever follows. */
  lemma GroupsRead(v: nat, rest: seq<Byte>)
    ensures GroupSum(Groups(v)) == v
    ensures Extent(Groups(v) + rest) == |Groups(v)|
  {
    hide GroupSum, Groups, Extent;
    GroupsMake(v);
    GroupsEnd(v, rest);
  }

  lemma NoGroups()
    ensures GroupSum([]) == 0
  {
  }

  lemma {:induction false} GroupsLength(v: nat, k: nat)
    requires k > 0
    ensures |Groups(v)| <= k <==> v < Pow2(7 * k)
  {
    assert 7 * k == 7 * (k - 1) + 7;
    Pow2Add7(7 * (k - 1));
    if v >= 128 && k > 1 {
      GroupsLength(v / 128, k - 1);
    }
  }

  lemma FiveGroups(v: U32)
    ensures |Groups(v)| <= 5
    ensures |Groups(v)| == 5 ==> Groups(v)[4] < 16
  {
    ShiftValues();
    Pow2Add7(28);
    GroupsLength(v, 5);
    var g := Groups(v);
    if |g| == 5 {
      GroupsRead(v, []);
      assert g + [] == g;
      assert g == g[..4] + [g[4]];
      GroupSumSnoc(g[..4], g[4]);
      assert g[4] < 128;
    }
  }

  lemma {:induction false} GroupsMonotone(a: nat, b: nat)
    requires a <= b
    ensures |Groups(a)| <= |Groups(b)|
  {
    if a >= 128 { GroupsMonotone(a / 128, b / 128); }
  }

  /** A larger value never has a shorter encoding. */
  lemma EncodeMonotone(a: U32, b: U32, prefixBits: nat)
    requires a <= b && prefixBits <= MAX_PREFIX_BITS
    ensures |Encode(a, prefixBits)| <= |Encode(b, prefixBits)|
  {
    hide Groups;
    var m := MaxPrefix(prefixBits);
    if a >= m { GroupsMonotone(a - m, b - m); }
  }

  // ----- main results -----

  /** A saturated prefix followed by the groups of `v` reads back as `m + v`. */
  lemma GroupsRoundTrip(v: U32, m: nat, rest: seq<Byte>)
    requires m + v < TWO32
    ensures |Groups(v)| <= 5
    ensures DecodeGroups(Groups(v) + rest, m) == Some(Integer(m + v, 1 + |Groups(v)|))
  {
    hide GroupSum, Groups, Extent;
    var g := Groups(v);
    GroupsRead(v, rest);
    FiveGroups(v);
    assert (g + rest)[..|g|] == g;
    if |g| == 5 { FiveGroupSum(g); }
  }

  /**
   Round trip and self-delimitation: whatever flag bits stand above the prefix and whatever
   bytes follow, decoding gives back the value and consumes exactly the encoding, at most 6 bytes.
   */
  lemma IntegerRoundTrip(v: U32, prefixBits: nat, flags: nat, first: Byte, rest: seq<Byte>)
    requires prefixBits <= MAX_PREFIX_BITS
    requires first == flags * Pow2(prefixBits) + Encode(v, prefixBits)[0]
    ensures |Encode(v, prefixBits)| <= 6
    ensures Decode([first] + Encode(v, prefixBits)[1..] + rest, prefixBits)
         == Some(Integer(v, |Encode(v, prefixBits)|))
  {
    hide DecodeGroups, LowBits, Pow2, Groups, Decode;
    assert Encode(v, prefixBits)[0] < Pow2(prefixBits);
    LowBitsMask(flags, Encode(v, prefixBits)[0], prefixBits);
    EncodingDecodes(v, prefixBits, first, rest);
  }

  lemma EncodingDecodes(v: U32, prefixBits: nat, first: Byte, rest: seq<Byte>)
    requires prefixBits <= MAX_PREFIX_BITS
    requires LowBits(first, prefixBits) == Encode(v, prefixBits)[0]
    ensures |Encode(v, prefixBits)| <= 6
    ensures Decode([first] + Encode(v, prefixBits)[1..] + rest, prefixBits)
         == Some(Integer(v, |Encode(v, prefixBits)|))
  {
    hide DecodeGroups, LowBits, MaxPrefix, Pow2, Groups;
    var m, e := MaxPrefix(prefixBits), Encode(v, prefixBits);
    var s := [first] + e[1..] + rest;
    if v >= m {
      assert s[1..] == Groups(v - m) + rest;
      GroupsRoundTrip(v - m, m, rest);
    }
  }

  lemma WrapsTo(v: U32, q: nat)
    ensures (v + q * TWO32) % TWO32 == v
  {
  }

  lemma DecodeGroupsSound(groups: seq<Byte>, m: nat)
    requires DecodeGroups(groups, m).Some?
    ensures var d := DecodeGroups(groups, m).value;
      && 2 <= d.used <= 6 && d.used <= 1 + |groups|
      && m <= d.value && |Groups(d.value - m)| < d.used
      && (d.value == m + GroupSum(groups[..d.used - 1]) <==> d.used < 6 || groups[4] % 128 < 16)
      && (m + GroupSum(groups[..d.used - 1])) % TWO32 == d.value
  {
    hide GroupSum, Groups, Pow2;
    var d := DecodeGroups(groups, m).value;
    var g := groups[..d.used - 1];
    if |g| == 5 {
      FiveGroupSum(g);
      FiveGroups(d.value - m);
      WrapsTo(d.value, g[4] % 128 / 16);
    } else {
      ShortSum(g);
      GroupsLength(d.value - m, |g|);
    }
  }

  /**
   Decoder soundness: an accepted value is the RFC's value modulo 2^32, from at most 6 bytes, and
   re-encoding it never takes more bytes than were read.
   */
  lemma IntegerDecodeSound(s: seq<Byte>, prefixBits: nat, flags: nat, p: nat)
    requires Decode(s, prefixBits).Some? && s[0] == flags * Pow2(prefixBits) + p && p < Pow2(prefixBits)
    ensures var d := Decode(s, prefixBits).value;
      && 1 <= d.used <= 6 && d.used <= |s|
      && d.value == (p + GroupSum(s[1..d.used])) % TWO32
      && |Encode(d.value, prefixBits)| <= d.used
  {
    hide DecodeGroups, LowBits, Groups, Pow2;
    LowBitsMask(flags, p, prefixBits);
    var d := Decode(s, prefixBits).value;
    if LowBits(s[0], prefixBits) >= MaxPrefix(prefixBits) {
      DecodeGroupsSound(s[1..], MaxPrefix(prefixBits));
      assert s[1..][..d.used - 1] == s[1..d.used];
    }
  }

  /**
   When the decoder agrees with section 5.1 of RFC 7541: exactly when no fifth group is present
   or the fifth group holds at most four significant bits.
   */
  lemma IntegerDecodeExact(s: seq<Byte>, prefixBits: nat, flags: nat, p: nat)
    requires Decode(s, prefixBits).Some? && s[0] == flags * Pow2(prefixBits) + p && p < Pow2(prefixBits)
    ensures var d := Decode(s, prefixBits).value;
      && 1 <= d.used <= |s|
      && (d.value == p + GroupSum(s[1..d.used]) <==> d.used < 6 || s[5] % 128 < 16)
  {
    hide DecodeGroups, LowBits, Groups, Pow2;
    LowBitsMask(flags, p, prefixBits);
    var d := Decode(s, prefixBits).value;
    if LowBits(s[0], prefixBits) >= MaxPrefix(prefixBits) {
      DecodeGroupsSound(s[1..], MaxPrefix(prefixBits));
      assert s[1..][..d.used - 1] == s[1..d.used];
    }
  }

  /**
   Which inputs are accepted, given where the group run behind a saturated prefix ends: any run of
   up to four groups, and one of five when what 32 bits keep of the total does not exceed 2^32 - 1.
   */
  lemma IntegerAcceptedIff(s: seq<Byte>, prefixBits: nat, flags: nat, n: nat)
    requires prefixBits <= 7 && 0 < n < |s| && s[0] == flags * Pow2(prefixBits) + (Pow2(prefixBits) - 1)
    requires s[n] < 128 && forall i :: 0 < i < n ==> s[i] >= 128
    ensures Decode(s, prefixBits).Some? <==>
      n <= 4 || (n == 5 && Pow2(prefixBits) - 1 + GroupSum(s[1..5]) + s[5] as int % 16 * 0x1000_0000 < TWO32)
  {
    hide LowBits, GroupSum, Pow2, Extent;
    LowBitsMask(flags, Pow2(prefixBits) - 1, prefixBits);
    var groups := s[1..];
    RunEnds(groups, n);
    if n <= 4 {
      ShortSum(groups[..n]);
      ShiftValues();
      Pow2Monotone(7 * n, 28);
    } else if n == 5 {
      assert groups[..5][..4] == s[1..5] && groups[..5][4] == s[5];
    }
  }

  lemma RunEnds(groups: seq<Byte>, n: nat)
    requires 0 < n <= |groups| && groups[n - 1] < 128 && forall i :: 0 <= i < n - 1 ==> groups[i] >= 128
    ensures Extent(groups) == n
  {
    hide Extent;
  }

  /** Nothing else is accepted behind a saturated prefix: not a run without an end, and nothing without a byte. */
  lemma UnendedRefused(s: seq<Byte>, prefixBits: nat, flags: nat)
    requires prefixBits <= 7 && (s == [] || s[0] == flags * Pow2(prefixBits) + (Pow2(prefixBits) - 1))
    requires forall i :: 0 < i < |s| ==> s[i] >= 128
    ensures Decode(s, prefixBits) == None
  {
    hide LowBits, Pow2;
    if s != [] { LowBitsMask(flags, Pow2(prefixBits) - 1, prefixBits); }
  }

  /**
   What the encoder writes, in the terms of section 5.1 of RFC 7541: a prefix within its bits, all
   ones exactly if groups follow, and prefix plus groups make the value.
   */
  lemma EncodeMeaning(v: U32, prefixBits: nat)
    requires prefixBits <= 7
    ensures var e := Encode(v, prefixBits);
      && e[0] < Pow2(prefixBits) && (|e| > 1 <==> e[0] == Pow2(prefixBits) - 1)
      && e[0] + GroupSum(e[1..]) == v
      && (forall i :: 0 < i < |e| - 1 ==> e[i] >= 128) && (|e| > 1 ==> e[|e| - 1] < 128)
  {
    hide Groups, GroupSum, Pow2;
    var e, m := Encode(v, prefixBits), MaxPrefix(prefixBits);
    if v >= m {
      GroupsRead(v - m, []);
      assert e[1..] == Groups(v - m) && Groups(v - m) + [] == Groups(v - m);
      forall i | 0 < i < |e| ensures e[i] == Groups(v - m)[i - 1] { }
    } else {
      assert e[1..] == [] && GroupSum([]) == 0 by { NoGroups(); }
    }
  }

  lemma {:induction false} EmptyGroups(s: seq<Byte>)
    requires forall i :: 0 <= i < |s| ==> s[i] == 128
    ensures GroupSum(s) == 0
  {
    if s != [] { EmptyGroups(s[1..]); }
  }

  /**
   The groups 128 128 128 128 16, which RFC 7541 reads as 2^32: behind a saturated 7-bit prefix
   they are accepted as 127, not as 2^32 + 127.
   */
  lemma IntegerDecodeWraps(g: seq<Byte>)
    requires |g| == 5 && g[4] == 16 && forall i :: 0 <= i < 4 ==> g[i] == 128
    ensures GroupSum(g) == TWO32
    ensures Decode([127] + g, 7) == Some(Integer(127, 6))
  {
    hide GroupSum, Pow2, KeptSum, LowBits;
    EmptyGroups(g[..4]);
    GroupSumSnoc(g[..4], 16);
    assert g == g[..4] + [16] && g[..5] == g;
    ShiftValues();
    FiveGroupSum(g);
    assert DecodeGroups(g, 127) == Some(Integer(127, 6));
    assert ([127] + g)[1..] == g && MaxPrefix(7) == 127;
  }

  // ----- the loops -----

  /** The group loop of the encoder, on what is left of the buffer behind the prefix. */
  method WriteGroups(value: nat, output: array<Byte>, off: nat, len: nat) returns (r: int)
    requires off + len <= output.Length
    modifies output
    ensures r == if |Groups(value)| <= len then |Groups(value)| else -1
    ensures output[..] == Overwrite(old(output[..]), off, Fit(Groups(value), len))
  {
    ghost var g, before := Groups(value), output[..];
    var pos, v := 0, value;
    while v >= 128
      invariant 0 <= pos <= len && pos < |g| && g[pos..] == Groups(v)
      invariant output[..] == Overwrite(before, off, g[..pos])
    {
      if pos >= len { return -1; }
      assert g[pos] == g[pos..][0] && g[pos + 1..] == g[pos..][1..];
      assert g[..pos] + [g[pos]] == g[..pos + 1];
      Store(output, off + pos, v % 128 + 128, before, g[..pos]);
      pos := pos + 1;
      v := v / 128;
    }
    if pos >= len { return -1; }
    assert g[pos..] == [v] && g == g[..pos] + g[pos..];
    Store(output, off + pos, v, before, g[..pos]);
    return pos + 1;
  }

  method EncodeInteger(value: U32, prefixBits: nat, output: array<Byte>, off: nat, len: nat) returns (r: int)
    requires off + len <= output.Length
    modifies output
    ensures prefixBits > MAX_PREFIX_BITS ==> r == -1 && output[..] == old(output[..])
    ensures prefixBits <= MAX_PREFIX_BITS ==>
      && r == (if |Encode(value, prefixBits)| <= len then |Encode(value, prefixBits)| else -1)
      && output[..] == Overwrite(old(output[..]), off, Fit(Encode(value, prefixBits), len))
  {
    hide Groups, Pow2, Overwrite, Fit;
    if prefixBits > MAX_PREFIX_BITS {
      return -1;
    }
    ghost var before := output[..];
    OverwriteNothing(before, off);
    if len == 0 {
      assert Fit(Encode(value, prefixBits), 0) == [];
      return -1;
    }
    var maxPrefix := MaxPrefix(prefixBits);
    if value < maxPrefix {
      FitPrefix(value, [], len);
      assert Fit([], len - 1) == [] && [value] + [] == [] + [value] == [value];
      Store(output, off, value, before, []);
      return 1;
    }
    ghost var g := Groups(value - maxPrefix);
    FitPrefix(maxPrefix, g, len);
    OverwriteAppend(before, off, [maxPrefix], Fit(g, len - 1));
    assert [] + [maxPrefix] == [maxPrefix];
    Store(output, off, maxPrefix, before, []);
    var n := WriteGroups(value - maxPrefix, output, off + 1, len - 1);
    return if n < 0 then -1 else n + 1;
  }

  method DecodeInteger(input: seq<Byte>, prefixBits: nat) returns (r: int, value: U32)
    ensures match Decode(input, prefixBits)
      case None => r == -1
      case Some(d) => r == d.used && value == d.value
  {
    hide LowBits, Shifted, Pow2;
    if input == [] || prefixBits > MAX_PREFIX_BITS {
      return -1, 0;
    }
    var maxPrefix := MaxPrefix(prefixBits);
    value := LowBits(input[0], prefixBits);
    if value < maxPrefix {
      return 1, value;
    }
    ghost var groups := input[1..];
    assert groups[..0] == [] && KeptSum([]) == 0;
    hide KeptSum, GroupSum;
    var pos, m := 1, 0;
    while pos < |input|
      invariant 1 <= pos <= |input| && pos <= 6
      invariant m == 7 * (pos - 1)
      invariant forall i :: 0 <= i < pos - 1 ==> groups[i] >= 128
      invariant value == maxPrefix + KeptSum(groups[..pos - 1])
    {
      var byte := input[pos];
      pos := pos + 1;
      if m > MAX_SHIFT {
        assert Extent(groups) == 0 || Extent(groups) > 5;
        return -1, value;
      }
      assert byte == groups[pos - 2];
      assert groups[..pos - 2] + [byte] == groups[..pos - 1];
      KeptSumSnoc(groups[..pos - 2], byte);
      var toAdd := Shifted(byte % 128, m);
      if value > TWO32 - 1 - toAdd {
        var n := Extent(groups);
        if 0 < n <= 5 {
          KeptSumMonotone(groups[..n], pos - 1);
          assert groups[..n][..pos - 1] == groups[..pos - 1];
        }
        return -1, value;
      }
      value := value + toAdd;
      m := m + 7;
      if byte < 128 {
        assert Extent(groups) == pos - 1;
        return pos, value;
      }
    }
    return -1, value;
  }
}
