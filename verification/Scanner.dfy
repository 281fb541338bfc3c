/**
 The loops of the scanning pass: they walk the bytes, and are proved to find what the functions of `Decoding`
 define.  Also the loops by which numbers are read and packed elements are counted.
 */
module Scanner {
  import opened Seqs
  import opened Wire
  import opened Schema
  import opened Encoding
  import opened Decoding

  // ---------------------------------------------------------------------------------------------
  // Varints
  // ---------------------------------------------------------------------------------------------

  /** `scan_varint` and the two loops like it: the length of the varint at the start, 0 if it does not end within `max` bytes. */
  method ScanVarint(s: seq<byte>, max: nat) returns (k: nat)
    ensures k == TermLen(s, max)
  {
    var len := if |s| < max then |s| else max;
    k := 0;
    while k < len && s[k] >= 128
      invariant k <= len
      invariant forall j | 0 <= j < k :: s[j] >= 128
    {
      k := k + 1;
    }
    TermLenAbsent(s, max);
    if k == len { return 0; }
    k := k + 1;
    assert Terminated(s[..k]);
    TerminatedUnique(s, k, max);
  }

  lemma {:induction false} ValueSnoc(s: seq<byte>, b: byte)
    ensures VarintValue(s + [b]) == VarintValue(s) + Low7(b) * Pow128(|s|)
    decreases |s|
  {
    if s == [] {
      assert (s + [b])[1..] == [];
    } else {
      assert (s + [b])[1..] == s[1..] + [b];
      ValueSnoc(s[1..], b);
      Distribute(VarintValue(s[1..]), Low7(b), Pow128(|s| - 1));
    }
  }

  lemma Distribute(v: nat, x: nat, p: nat)
    ensures 128 * (v + x * p) == 128 * v + x * (128 * p)
  {
  }

  lemma ValueOfPrefix(s: seq<byte>, i: nat)
    requires i < |s|
    ensures VarintValue(s[..i + 1]) == VarintValue(s[..i]) + Low7(s[i]) * Pow128(i)
  {
    TakeSnoc(s, i + 1);
    ValueSnoc(s[..i], s[i]);
  }

  lemma WrapSum(a: nat, b: nat)
    ensures Wrap32(Wrap32(a) + Wrap32(b)) == Wrap32(a + b)
  {
    var p, q := a / TWO32, b / TWO32;
    assert a == p * TWO32 + a % TWO32 && b == q * TWO32 + b % TWO32;
    assert a + b == (p + q) * TWO32 + (a % TWO32 + b % TWO32);
    Multiple(p + q, a % TWO32 + b % TWO32);
  }

  lemma Multiple(p: nat, r: nat)
    ensures (p * TWO32 + r) % TWO32 == r % TWO32
  {
  }

  /** Three bits of the first byte are the wire type; shifting the rest by 4, 11, 18, ... drops them. */
  lemma TagGroup(v: nat, x: nat, i: nat)
    requires i > 0
    ensures (v + x * Pow128(i)) / 8 == v / 8 + x * (16 * Pow128(i - 1)) && (v + x * Pow128(i)) % 8 == v % 8
  {
    var y := x * (16 * Pow128(i - 1));
    assert x * Pow128(i) == 8 * y;
    assert v + 8 * y == 8 * (v / 8 + y) + v % 8;
  }

  /** One more group of a tag. */
  lemma TagNext(data: seq<byte>, i: nat)
    requires 0 < i < |data|
    ensures Wrap32(VarintValue(data[..i + 1]) / 8) == Wrap32(Wrap32(VarintValue(data[..i]) / 8) + Wrap32(Low7(data[i]) * Scale(i)))
    ensures VarintValue(data[..i + 1]) % 8 == VarintValue(data[..i]) % 8
  {
    ValueOfPrefix(data, i);
    TagGroup(VarintValue(data[..i]), Low7(data[i]), i);
    WrapSum(VarintValue(data[..i]) / 8, Low7(data[i]) * Scale(i));
    hide VarintValue, Wrap32, Low7, Pow128;
  }

  lemma NoTerm(data: seq<byte>)
    ensures TermLen(data, 5) == 0 <==> ParseTag(data).None?
  {
    hide TermLen, VarintValue;
  }

  /** `parse_tag_and_wiretype`: `used` is 0 for a bad header. */
  method ParseTagAndWiretype(data: seq<byte>) returns (used: nat, tag: u32, wire: WireType)
    requires data != []
    ensures used == 0 <==> ParseTag(data).None?
    ensures used > 0 ==> ParseTag(data) == Some(Header(tag, wire, used))
  {
    hide Pow128, TermLen, Wrap32, VarintValue, Low7, Scale, ParseTag, Terminated;
    NoTerm(data);
    var maxRv := if |data| > 5 then 5 else |data|;
    FirstTagByte(data);
    tag, wire := Low7(data[0]) / 8, data[0] % 8;
    if data[0] < 128 {
      TagEnds(data, 1);
      return 1, tag, wire;
    }
    used := 1;
    while used < maxRv
      invariant 1 <= used <= maxRv && forall j | 0 <= j < used :: data[j] >= 128
      invariant tag == Wrap32(VarintValue(data[..used]) / 8) && wire == VarintValue(data[..used]) % 8
    {
      TagNext(data, used);
      tag := Wrap32(tag + Wrap32(Low7(data[used]) * Scale(used)));
      if data[used] < 128 {
        TagEnds(data, used + 1);
        return used + 1, tag, wire;
      }
      used := used + 1;
    }
    TermLenAbsent(data, 5);
    return 0, tag, wire;
  }

  /** `1 << shift`, where `shift` is 4 and then grows by 7. */
  function Scale(k: nat): nat
    requires k > 0
  {
    16 * Pow128(k - 1)
  }

  lemma FirstTagByte(data: seq<byte>)
    requires data != []
    ensures Pow128(0) == 1 && VarintValue(data[..1]) == Low7(data[0])
    ensures Low7(data[0]) / 8 == Wrap32(VarintValue(data[..1]) / 8) && data[0] % 8 == VarintValue(data[..1]) % 8
  {
    assert data[..1][1..] == [] && VarintValue([]) == 0;
    Low7Bits(data[0]);
  }

  lemma Low7Bits(b: byte)
    ensures Low7(b) % 8 == b % 8 && 0 <= Low7(b) < 128
  {
    assert b == 128 * (b / 128) + Low7(b);
  }

  lemma TagEnds(data: seq<byte>, k: nat)
    requires 0 < k <= |data| && k <= 5 && data[k - 1] < 128 && forall j | 0 <= j < k - 1 :: data[j] >= 128
    ensures var v := VarintValue(data[..k]); ParseTag(data) == Some(Header(Wrap32(v / 8), v % 8, k))
  {
    assert Terminated(data[..k]);
    TerminatedUnique(data, k, 5);
  }

  /** The size of a length prefix and the length it announces do not fit 32 bits together. */
  predicate Wraps(data: seq<byte>) {
    var k := TermLen(data, 5);
    k > 0 && k + Wrap32(VarintValue(data[..k])) >= TWO32
  }

  /** What `scan_length_prefixed_data` answers: their 32-bit sum, or 0 if there is no prefix or too little behind it. */
  function ScannedLen(data: seq<byte>): (r: nat)
    ensures r <= |data|
  {
    var k := TermLen(data, 5);
    if k == 0 then 0 else
    var len := Wrap32(k + Wrap32(VarintValue(data[..k])));
    if len > |data| then 0 else len
  }

  /** One more group of a length. */
  lemma LengthNext(data: seq<byte>, i: nat)
    requires i < |data|
    ensures Wrap32(VarintValue(data[..i + 1])) == Wrap32(Wrap32(VarintValue(data[..i])) + Wrap32(Low7(data[i]) * Pow128(i)))
  {
    ValueOfPrefix(data, i);
    WrapSum(VarintValue(data[..i]), Low7(data[i]) * Pow128(i));
    hide VarintValue, Wrap32, Low7, Pow128;
  }

  /** `scan_length_prefixed_data`. */
  method ScanLengthPrefixed(data: seq<byte>) returns (len: nat, prefixLen: nat)
    ensures len == ScannedLen(data)
    ensures len > 0 ==> prefixLen == TermLen(data, 5) > 0
  {
    hide Pow128, TermLen, Wrap32, VarintValue, Low7;
    var hdrMax := if |data| < 5 then |data| else 5;
    var val: u32 := 0;
    var i := 0;
    PrefixStart(data);
    while i < hdrMax
      invariant i <= hdrMax && forall j | 0 <= j < i :: data[j] >= 128
      invariant val == Wrap32(VarintValue(data[..i]))
    {
      LengthNext(data, i);
      val := Wrap32(val + Wrap32(Low7(data[i]) * Pow128(i)));
      if data[i] < 128 { break; }
      i := i + 1;
    }
    if i == hdrMax {
      TermLenAbsent(data, 5);
      return 0, 0;
    }
    prefixLen := i + 1;
    assert Terminated(data[..prefixLen]);
    TerminatedUnique(data, prefixLen, 5);
    if Wrap32(prefixLen + val) > |data| { return 0, prefixLen; }
    len := Wrap32(prefixLen + val);
  }

  /** Unless the sum wraps, the answer is the length of a complete member; if it does, there is no complete member. */
  lemma ScannedLenIs(data: seq<byte>)
    ensures !Wraps(data) ==> ScannedLen(data) == MemberLen(WIRE_PREFIXED, data)
    ensures Wraps(data) ==> MemberLen(WIRE_PREFIXED, data) == 0
  {
    hide TermLen, VarintValue;
  }

  /** A prefix that wraps takes five bytes, all of whose number bits but the lowest three are set; the sum is at most four. */
  lemma WrapsShape(data: seq<byte>)
    requires Wraps(data)
    ensures |data| >= 5 && TermLen(data, 5) == 5 && ScannedLen(data) <= 4
    ensures data[1] == data[2] == data[3] == 255 && data[4] < 128 && data[4] % 16 == 15
  {
    hide VarintValue, TermLen;
    var s := data[..TermLen(data, 5)];
    WrapsBytes(s);
    assert forall i | 0 <= i < |s| :: s[i] == data[i];
  }

  lemma WrapsBytes(s: seq<byte>)
    requires Terminated(s) && |s| <= 5 && |s| + Wrap32(VarintValue(s)) >= TWO32
    ensures |s| == 5 && Wrap32(|s| + Wrap32(VarintValue(s))) <= 4
    ensures s[1] == s[2] == s[3] == 255 && s[4] < 128 && s[4] % 16 == 15
  {
    ParseUInt32Value(s);
    ParseUInt32Groups(s);
    hide VarintValue, ParseUInt32;
    if |s| < 5 { SmallPrefix(s); }
    HighGroups5(|s|, Group(s, 0), Group(s, 1), Group(s, 2), Group(s, 3), Group(s, 4) % 16);
    FullGroup(s[1]);
    FullGroup(s[2]);
    FullGroup(s[3]);
  }

  lemma FullGroup(b: byte)
    ensures b >= 128 && Low7(b) == 127 ==> b == 255
    ensures b < 128 ==> Low7(b) == b
  {
  }

  lemma HighGroups5(k: nat, g0: nat, g1: nat, g2: nat, g3: nat, g4: nat)
    requires k <= 5 && g0 < 128 && g1 < 128 && g2 < 128 && g3 < 128 && g4 < 16
    requires k + (g0 + g1 * 0x80 + g2 * 0x4000 + g3 * 0x20_0000 + 0x1000_0000 * g4) >= 0x1_0000_0000
    ensures g1 == g2 == g3 == 127 && g4 == 15
    ensures (k + (g0 + g1 * 0x80 + g2 * 0x4000 + g3 * 0x20_0000 + 0x1000_0000 * g4)) % 0x1_0000_0000 <= 4
  {
  }

  lemma SmallPrefix(s: seq<byte>)
    requires 0 < |s| < 5
    ensures Group(s, 4) == 0
  {
  }

  /** What the scanning pass takes for the next tag then is a part of the prefix; it has wire type 7. */
  lemma WrapsFails(data: seq<byte>)
    requires Wraps(data) && ScannedLen(data) > 0
    ensures ScannedLen(data) < |data| && ScanMember(data[ScannedLen(data)..]).None?
    ensures ParseTag(data[ScannedLen(data)..]).Some? && ParseTag(data[ScannedLen(data)..]).value.wire == 7
  {
    WrapsShape(data);
    var rest := data[ScannedLen(data)..];
    var k := 5 - ScannedLen(data);
    hide ScannedLen, Wraps;
    assert rest[0] % 8 == 7;
    assert rest[k - 1] == data[4] && forall j | 0 <= j < k - 1 :: rest[j] >= 128;
    TagEnds(rest, k);
    FirstGroup(rest[..k]);
  }

  lemma FirstGroup(s: seq<byte>)
    requires s != []
    ensures VarintValue(s) % 8 == s[0] % 8
  {
    Low7Bits(s[0]);
    Low3(Low7(s[0]), VarintValue(s[1..]));
    hide Low7;
  }

  lemma Low3(g: nat, x: nat)
    ensures (g + 128 * x) % 8 == g % 8
  {
    assert g + 128 * x == g + 8 * (16 * x);
  }

  lemma PrefixStart(data: seq<byte>)
    ensures data[..0] == [] && VarintValue(data[..0]) == 0 && Wrap32(0) == 0
  {
  }

  // ---------------------------------------------------------------------------------------------
  // Numbers
  // ---------------------------------------------------------------------------------------------

  /** The loop of `parse_boolean`. */
  method ParseBooleanBytes(s: seq<byte>) returns (b: bool)
    ensures b == ParseBoolean(s)
  {
    var i := 0;
    while i < |s|
      invariant i <= |s| && ParseBoolean(s) == ParseBoolean(s[i..])
    {
      assert s[i..][1..] == s[i + 1..];
      if Low7(s[i]) != 0 { return true; }
      i := i + 1;
    }
    return false;
  }

  /** `parse_uint64`, whose loop adds one group at a time, each shifted by 7 bits more than the last. */
  method ParseUInt64Bytes(s: seq<byte>) returns (v: u64)
    requires 0 < |s| <= 10
    ensures v == ParseUInt64(s)
  {
    UInt64Parts(s);
    hide *;
    if |s| < 5 { return ParseUInt32(s); }
    var low := LowFour(s);
    var rv: nat, weight: nat := low, 0x1000_0000;
    var i := 4;
    while i < |s|
      invariant 4 <= i <= |s|
      invariant rv + HighGroups(s, i, weight) == low + HighGroups(s, 4, 0x1000_0000)
    {
      HighGroupsNext(s, i, weight);
      rv := rv + Low7(s[i]) * weight;
      weight := weight * 128;
      i := i + 1;
    }
    HighGroupsEnd(s, weight);
    v := Wrap64(rv);
  }

  function LowFour(s: seq<byte>): nat
    requires |s| >= 4
  {
    Low7(s[0]) + Low7(s[1]) * 0x80 + Low7(s[2]) * 0x4000 + Low7(s[3]) * 0x20_0000
  }

  lemma UInt64Parts(s: seq<byte>)
    requires |s| > 0
    ensures |s| < 5 ==> ParseUInt64(s) == ParseUInt32(s)
    ensures |s| >= 5 ==> ParseUInt64(s) == Wrap64(LowFour(s) + HighGroups(s, 4, 0x1000_0000))
  {
    hide HighGroups, ParseUInt32, Low7;
  }

  lemma HighGroupsNext(s: seq<byte>, i: nat, weight: nat)
    requires i < |s|
    ensures HighGroups(s, i, weight) == Low7(s[i]) * weight + HighGroups(s, i + 1, weight * 128)
  {
  }

  lemma HighGroupsEnd(s: seq<byte>, weight: nat)
    ensures HighGroups(s, |s|, weight) == 0
  {
  }

  // ---------------------------------------------------------------------------------------------
  // Counting
  // ---------------------------------------------------------------------------------------------

  /** How many bytes end a varint. */
  function Terminators(s: seq<byte>): nat {
    if s == [] then 0 else (if s[0] < 128 then 1 else 0) + Terminators(s[1..])
  }

  lemma {:induction false} TerminatorsAppend(a: seq<byte>, b: seq<byte>)
    ensures Terminators(a + b) == Terminators(a) + Terminators(b)
    decreases |a|
  {
    if a == [] {
      Empty(b);
    } else {
      SliceAppend(a, b, 1);
      TerminatorsAppend(a[1..], b);
    }
  }

  lemma {:induction false} OneTerminator(s: seq<byte>)
    requires Terminated(s)
    ensures Terminators(s) == 1
    decreases |s|
  {
    if |s| > 1 {
      assert forall i | 0 <= i < |s| - 1 :: s[1..][i] == s[i + 1];
      OneTerminator(s[1..]);
    } else {
      assert s[1..] == [];
    }
  }

  /** The elements the scanning pass reserves for a packed body; `None` if its length is no multiple of the element size. */
  function Reserved(t: FieldType, body: seq<byte>): Option<nat> {
    if Is32(t) then (if |body| % 4 != 0 then None else Some(|body| / 4))
    else if Is64(t) then (if |body| % 8 != 0 then None else Some(|body| / 8))
    else if t.BOOL? then Some(|body|)
    else Some(Terminators(body))
  }

  /** `max_b128_numbers`: counts the terminators of `len` bytes, and is stopped where `data` ends before that. */
  method MaxB128Numbers(len: nat, data: seq<byte>) returns (rv: nat, outside: bool)
    ensures outside <==> len > |data|
    ensures !outside ==> rv == Terminators(data[..len])
  {
    var n, i := len, 0;
    rv := 0;
    assert data[..0] == [];
    while n > 0
      invariant i + n == len && 0 <= n && i <= |data| && rv == Terminators(data[..i])
    {
      if i == |data| { return rv, true; }
      TerminatorsNext(data, i);
      if data[i] < 128 { rv := rv + 1; }
      i, n := i + 1, n - 1;
    }
    outside := false;
  }

  lemma TerminatorsNext(data: seq<byte>, i: nat)
    requires i < |data|
    ensures Terminators(data[..i + 1]) == Terminators(data[..i]) + if data[i] < 128 then 1 else 0
  {
    assert data[..i + 1] == data[..i] + [data[i]];
    TerminatorsAppend(data[..i], [data[i]]);
    assert [data[i]][1..] == [];
  }

  /** Counting the elements of a packed body of `len` bytes runs over the end of the input, which has `available` bytes left. */
  predicate CountsOutside(t: FieldType, len: nat, available: nat) {
    IsVarint(t) && !t.BOOL? && len > available
  }

  /** `count_packed_elements` for a body that has the length `len`, whether or not it is inside `data`. */
  method CountPackedElements(t: FieldType, len: nat, data: seq<byte>) returns (count: Option<nat>, outside: bool)
    requires Packable(t)
    ensures outside <==> CountsOutside(t, len, |data|)
    ensures len <= |data| ==> count == Reserved(t, data[..len])
    ensures !outside && len > |data| ==> (count.None? <==> (Is32(t) && len % 4 != 0) || (Is64(t) && len % 8 != 0))
  {
    outside := false;
    if Is32(t) { return if len % 4 != 0 then None else Some(len / 4), outside; }
    if Is64(t) { return if len % 8 != 0 then None else Some(len / 8), outside; }
    if t.BOOL? { return Some(len), outside; }
    var rv;
    rv, outside := MaxB128Numbers(len, data);
    count := Some(rv);
  }

  /** What one element takes off the reservation. */
  lemma ReservedStep(t: FieldType, body: seq<byte>)
    requires Packable(t) && ElementLen(t, body) > 0 && Reserved(t, body).Some?
    ensures var k := ElementLen(t, body);
      Reserved(t, body[k..]).Some? && Reserved(t, body).value == 1 + Reserved(t, body[k..]).value
  {
    var k := ElementLen(t, body);
    if IsVarint(t) && !t.BOOL? {
      SplitAt(body, k);
      TerminatorsAppend(body[..k], body[k..]);
      OneTerminator(body[..k]);
    }
  }

  /**
   The two passes agree: a body the parsing pass accepts has exactly as many elements as the scanning pass reserved.
   */
  lemma {:induction false} ReservedExactly(t: FieldType, body: seq<byte>)
    requires Packable(t) && ParsePacked(t, body).Some?
    ensures Reserved(t, body) == Some(|ParsePacked(t, body).value|)
    decreases |body|
  {
    hide *;
    if body == [] {
      NothingReserved(t);
    } else {
      ParsePackedFirst(t, body);
      ReservedExactly(t, body[ElementLen(t, body)..]);
      ReservedBack(t, body);
    }
  }

  lemma NothingReserved(t: FieldType)
    requires Packable(t)
    ensures ParsePacked(t, []) == Some([]) && Reserved(t, []) == Some(0)
  {
  }

  lemma ParsePackedFirst(t: FieldType, body: seq<byte>)
    requires Packable(t) && body != [] && ParsePacked(t, body).Some?
    ensures var k := ElementLen(t, body);
      0 < k <= |body| && ParsePacked(t, body[k..]).Some? && |ParsePacked(t, body).value| == 1 + |ParsePacked(t, body[k..]).value|
  {
    hide ElementLen, ElementValue;
  }

  lemma ReservedBack(t: FieldType, body: seq<byte>)
    requires Packable(t) && ElementLen(t, body) > 0 && Reserved(t, body[ElementLen(t, body)..]).Some?
    ensures Reserved(t, body) == Some(1 + Reserved(t, body[ElementLen(t, body)..]).value)
  {
    if IsVarint(t) && !t.BOOL? { ReservedStep(t, body); }
  }
}
