/**
 The scalar layer of the Protocol Buffers "Encoding" specification as protobuf-c implements it:
 base-128 varints, ZigZag, little-endian fixed-width numbers and length prefixes.

 C's bit operations on unsigned words are written as arithmetic: `x | 0x80` truncated to a byte is
 `x % 128 + 128`, `x >> k` is a division by a power of two, and `|` of disjoint bit groups is `+`.
 Every place where the C type truncates has an explicit `% `.
 */
module Wire {
  const TWO31 := 0x8000_0000
  const TWO32 := 0x1_0000_0000
  const TWO63 := 0x8000_0000_0000_0000
  const TWO64 := 0x1_0000_0000_0000_0000

  type byte = x: int | 0 <= x < 256
  type u32 = x: int | 0 <= x < 0x1_0000_0000
  type u64 = x: int | 0 <= x < 0x1_0000_0000_0000_0000
  type i32 = x: int | -0x8000_0000 <= x < 0x8000_0000
  type i64 = x: int | -0x8000_0000_0000_0000 <= x < 0x8000_0000_0000_0000

  /** The value C keeps when it stores `x` in a `uint32_t`. */
  function Wrap32(x: int): u32 { x % TWO32 }

  /** The value C keeps when it stores `x` in a `uint64_t`. */
  function Wrap64(x: int): u64 { x % TWO64 }

  /** A 32-bit pattern read as two's complement. */
  function AsInt32(n: u32): i32 { if n < TWO31 then n else n - TWO32 }

  /** A 64-bit pattern read as two's complement. */
  function AsInt64(n: u64): i64 { if n < TWO63 then n else n - TWO64 }

  // ---------------------------------------------------------------------------------------------
  // Varints
  // ---------------------------------------------------------------------------------------------

  /** Every byte but the last has its continuation bit set. */
  predicate Terminated(s: seq<byte>) {
    && |s| > 0
    && s[|s| - 1] < 128
    && forall i | 0 <= i < |s| - 1 :: s[i] >= 128
  }

  /** The minimal base-128 encoding, least significant group first. */
  function Varint(n: nat): (r: seq<byte>)
    ensures Terminated(r)
  {
    if n < 128 then [n] else [n % 128 + 128] + Varint(n / 128)
  }

  /** The seven payload bits of a varint byte. */
  function Low7(b: byte): nat { b % 128 }

  /** The number a group of varint bytes stands for, before any truncation. */
  function VarintValue(s: seq<byte>): nat {
    if s == [] then 0 else Low7(s[0]) + 128 * VarintValue(s[1..])
  }

  /** Length of the terminated varint at the start of `s`, looking at no more than `max` bytes; 0 if there is none. */
  function TermLen(s: seq<byte>, max: nat): (k: nat)
    ensures k <= |s| && k <= max
    ensures k > 0 ==> Terminated(s[..k])
    decreases max
  {
    if max == 0 || s == [] then 0
    else if s[0] < 128 then 1
    else
      var k := TermLen(s[1..], max - 1);
      if k == 0 then 0 else
        assert s[..k + 1] == [s[0]] + s[1..][..k];
        k + 1
  }

  lemma {:induction false} VarintInverse(n: nat)
    ensures VarintValue(Varint(n)) == n
  {
    if n >= 128 {
      VarintInverse(n / 128);
      assert Varint(n)[1..] == Varint(n / 128);
    }
  }

  lemma {:induction false} TermLenFinds(t: seq<byte>, rest: seq<byte>, max: nat)
    requires Terminated(t) && |t| <= max
    ensures TermLen(t + rest, max) == |t|
    decreases max
  {
    var s := t + rest;
    assert s[0] == t[0];
    if |t| > 1 {
      assert t[0] >= 128;
      assert forall i | 0 <= i < |t| - 1 :: t[1..][i] == t[i + 1];
      assert s[1..] == t[1..] + rest;
      TermLenFinds(t[1..], rest, max - 1);
    }
  }

  /** When no terminated prefix is found, all the inspected bytes continue. */
  lemma {:induction false} TermLenAbsent(s: seq<byte>, max: nat)
    ensures TermLen(s, max) == 0 <==> (forall i | 0 <= i < |s| && i < max :: s[i] >= 128)
    decreases max
  {
    if max > 0 && s != [] && s[0] >= 128 {
      TermLenAbsent(s[1..], max - 1);
      assert forall i | 0 <= i < |s| - 1 :: s[1..][i] == s[i + 1];
      if TermLen(s, max) == 0 {
        forall i | 0 <= i < |s| && i < max ensures s[i] >= 128 {
          if i > 0 { assert s[1..][i - 1] >= 128; }
        }
      }
    }
  }

  lemma {:induction false} TerminatedUnique(s: seq<byte>, k: nat, max: nat)
    requires k <= |s| && k <= max && Terminated(s[..k])
    ensures TermLen(s, max) == k
  {
    assert s == s[..k] + s[k..];
    TermLenFinds(s[..k], s[k..], max);
  }

  /** Varints are prefix-free: what follows one can always be split off again. */
  lemma VarintPrefixFree(a: nat, b: nat, x: seq<byte>, y: seq<byte>)
    requires Varint(a) + x == Varint(b) + y
    ensures a == b && x == y
  {
    var max := |Varint(a)| + |Varint(b)|;
    TermLenFinds(Varint(a), x, max);
    TermLenFinds(Varint(b), y, max);
    assert Varint(a) == (Varint(a) + x)[..|Varint(a)|] == Varint(b);
    assert x == (Varint(a) + x)[|Varint(a)|..] == y;
    VarintInverse(a);
    VarintInverse(b);
  }

  function Pow128(k: nat): (r: nat)
    ensures r > 0
  {
    if k == 0 then 1 else 128 * Pow128(k - 1)
  }

  lemma {:induction false} VarintLength(n: nat, k: nat)
    requires 0 < k && n < Pow128(k) && (k == 1 || Pow128(k - 1) <= n)
    ensures |Varint(n)| == k
  {
    if k > 1 {
      assert n >= 128 by { assert Pow128(k - 1) == 128 * Pow128(k - 2); }
      VarintLength(n / 128, k - 1);
    }
  }

  lemma {:induction false} VarintMonotone(a: nat, b: nat)
    requires a <= b
    ensures |Varint(a)| <= |Varint(b)|
  {
    if a >= 128 { VarintMonotone(a / 128, b / 128); }
  }

  /** A ten-fold larger number needs at most one byte more, because 10 < 128. */
  lemma {:induction false} VarintTenfold(a: nat, b: nat)
    requires a <= b <= 10 * a
    ensures |Varint(a)| <= |Varint(b)| <= |Varint(a)| + 1
  {
    VarintMonotone(a, b);
    if a >= 128 {
      var a', b' := a / 128, b / 128;
      // b <= 10a gives b / 128 <= 10 (a / 128) + 9 <= 128 (a / 128) + 127 for a / 128 > 0
      VarintMonotone(b', 128 * a' + 127);
      assert (128 * a' + 127) / 128 == a';
      assert |Varint(128 * a' + 127)| == |Varint(a')| + 1;
    } else {
      assert b < 128 * 128;
      assert b / 128 < 128;
    }
  }

  // ---------------------------------------------------------------------------------------------
  // Sizes
  // ---------------------------------------------------------------------------------------------

  lemma VarintLengths()
    ensures forall n: nat {:trigger Varint(n)} ::
      && (n < 0x80 ==> |Varint(n)| == 1)
      && (0x80 <= n < 0x4000 ==> |Varint(n)| == 2)
      && (0x4000 <= n < 0x20_0000 ==> |Varint(n)| == 3)
      && (0x20_0000 <= n < 0x1000_0000 ==> |Varint(n)| == 4)
      && (0x1000_0000 <= n < 0x8_0000_0000 ==> |Varint(n)| == 5)
  {
    forall n: nat
      ensures && (n < 0x80 ==> |Varint(n)| == 1)
              && (0x80 <= n < 0x4000 ==> |Varint(n)| == 2)
              && (0x4000 <= n < 0x20_0000 ==> |Varint(n)| == 3)
              && (0x20_0000 <= n < 0x1000_0000 ==> |Varint(n)| == 4)
              && (0x1000_0000 <= n < 0x8_0000_0000 ==> |Varint(n)| == 5)
    {
      if n < 0x80 { VarintLength(n, 1); }
      else if n < 0x4000 { VarintLength(n, 2); }
      else if n < 0x20_0000 { VarintLength(n, 3); }
      else if n < 0x1000_0000 { VarintLength(n, 4); }
      else if n < 0x8_0000_0000 { VarintLength(n, 5); }
    }
  }

  function TagSize(number: u32): (r: nat)
    ensures forall tag: nat {:trigger Varint(tag)} | tag / 8 == number :: r == |Varint(tag)|
  {
    VarintLengths();
    if number < 0x10 then 1
    else if number < 0x800 then 2
    else if number < 0x4_0000 then 3
    else if number < 0x200_0000 then 4
    else 5
  }

  function UInt32Size(v: u32): (r: nat)
    ensures r == |Varint(v)|
  {
    VarintLengths();
    if v < 0x80 then 1
    else if v < 0x4000 then 2
    else if v < 0x20_0000 then 3
    else if v < 0x1000_0000 then 4
    else 5
  }

  function Int32Size(v: i32): (r: nat)
    ensures r == |Varint(Wrap64(v))|
  {
    VarintLengths();
    if v < 0 then VarintLength(TWO64 + v, 10); 10
    else if v < 0x80 then 1
    else if v < 0x4000 then 2
    else if v < 0x20_0000 then 3
    else if v < 0x1000_0000 then 4
    else 5
  }

  function UInt64Size(v: u64): (r: nat)
    ensures r == |Varint(v)|
  {
    var upper := v / TWO32;
    if upper == 0 then UInt32Size(v)
    else if upper < 0x8 then VarintLength(v, 5); 5
    else if upper < 0x400 then VarintLength(v, 6); 6
    else if upper < 0x2_0000 then VarintLength(v, 7); 7
    else if upper < 0x100_0000 then VarintLength(v, 8); 8
    else if upper < 0x8000_0000 then VarintLength(v, 9); 9
    else VarintLength(v, 10); 10
  }

  // ---------------------------------------------------------------------------------------------
  // ZigZag
  // ---------------------------------------------------------------------------------------------

  function Magnitude(v: int): nat { if v < 0 then -v else v }

  function ZigZag32(v: i32): u32 {
    if v < 0 then Wrap32(Wrap32(-(v as int)) * 2 - 1) else Wrap32(v * 2)
  }

  function UnZigZag32(v: u32): i32 {
    if v % 2 == 1 then AsInt32(Wrap32(-(v / 2) - 1)) else v / 2
  }

  function ZigZag64(v: i64): u64 {
    if v < 0 then Wrap64(Wrap64(-(v as int)) * 2 - 1) else Wrap64(v * 2)
  }

  function UnZigZag64(v: u64): i64 {
    if v % 2 == 1 then AsInt64(Wrap64(-(v / 2) - 1)) else v / 2
  }

  /** ZigZag is a bijection between the signed and the unsigned numbers, and keeps small magnitudes small. */
  lemma ZigZag32Bijective(v: i32, u: u32)
    ensures UnZigZag32(ZigZag32(v)) == v
    ensures ZigZag32(UnZigZag32(u)) == u
    ensures ZigZag32(v) == if v < 0 then 2 * Magnitude(v) - 1 else 2 * Magnitude(v)
  {
    ZigZag32Value(v);
    UnZigZag32Value(ZigZag32(v));
    UnZigZag32Value(u);
    ZigZag32Value(UnZigZag32(u));
  }

  lemma ZigZag32Value(v: i32)
    ensures ZigZag32(v) == if v < 0 then 2 * Magnitude(v) - 1 else 2 * Magnitude(v)
  {
    if v < 0 { assert Wrap32(-(v as int)) == Magnitude(v); }
  }

  lemma UnZigZag32Value(u: u32)
    ensures UnZigZag32(u) == if u % 2 == 1 then -(u / 2) - 1 else u / 2
  {
    if u % 2 == 1 { assert Wrap32(-(u / 2) - 1) == TWO32 - u / 2 - 1; }
  }

  lemma ZigZag64Bijective(v: i64, u: u64)
    ensures UnZigZag64(ZigZag64(v)) == v
    ensures ZigZag64(UnZigZag64(u)) == u
    ensures ZigZag64(v) == if v < 0 then 2 * Magnitude(v) - 1 else 2 * Magnitude(v)
  {
    ZigZag64Value(v);
    UnZigZag64Value(ZigZag64(v));
    UnZigZag64Value(u);
    ZigZag64Value(UnZigZag64(u));
  }

  lemma ZigZag64Value(v: i64)
    ensures ZigZag64(v) == if v < 0 then 2 * Magnitude(v) - 1 else 2 * Magnitude(v)
  {
    if v < 0 { assert Wrap64(-(v as int)) == Magnitude(v); }
  }

  lemma UnZigZag64Value(u: u64)
    ensures UnZigZag64(u) == if u % 2 == 1 then -(u / 2) - 1 else u / 2
  {
    if u % 2 == 1 { assert Wrap64(-(u / 2) - 1) == TWO64 - u / 2 - 1; }
  }

  // ---------------------------------------------------------------------------------------------
  // Parsing numbers
  // ---------------------------------------------------------------------------------------------

  /** At most the first five bytes count; the fifth is shifted with all its bits and truncated. */
  function ParseUInt32(s: seq<byte>): u32
    requires |s| > 0
  {
    Low7(s[0])
    + (if |s| > 1 then Low7(s[1]) * 0x80 else 0)
    + (if |s| > 2 then Low7(s[2]) * 0x4000 else 0)
    + (if |s| > 3 then Low7(s[3]) * 0x20_0000 else 0)
    + (if |s| > 4 then (s[4] % 16) as int * 0x1000_0000 else 0)
  }

  /** The payload of byte `k`, or 0 past the end. */
  function Group(s: seq<byte>, k: nat): nat { if k < |s| then Low7(s[k]) else 0 }

  function ValueFrom(s: seq<byte>, k: nat): nat { if k < |s| then VarintValue(s[k..]) else 0 }

  lemma ValueStep(s: seq<byte>, k: nat)
    ensures ValueFrom(s, k) == Group(s, k) + 128 * ValueFrom(s, k + 1)
  {
    if k < |s| { assert s[k..][1..] == s[k + 1..]; }
  }

  lemma ValueOfFour(s: seq<byte>)
    ensures VarintValue(s) == Group(s, 0) + Group(s, 1) * 0x80 + Group(s, 2) * 0x4000 + Group(s, 3) * 0x20_0000
                              + 0x1000_0000 * ValueFrom(s, 4)
  {
    assert s == s[0..];
    ValueStep(s, 0); ValueStep(s, 1); ValueStep(s, 2); ValueStep(s, 3);
  }

  lemma ParseUInt32Value(s: seq<byte>)
    requires |s| > 0
    ensures ParseUInt32(s) == VarintValue(s) % TWO32
  {
    ValueOfFour(s);
    ValueStep(s, 4);
    var low := Group(s, 0) + Group(s, 1) * 0x80 + Group(s, 2) * 0x4000 + Group(s, 3) * 0x20_0000;
    assert low < 0x1000_0000;
    Truncate(low, Group(s, 4), ValueFrom(s, 5));
    ParseUInt32Groups(s);
  }

  lemma ParseUInt32Groups(s: seq<byte>)
    requires |s| > 0
    ensures ParseUInt32(s) == Group(s, 0) + Group(s, 1) * 0x80 + Group(s, 2) * 0x4000 + Group(s, 3) * 0x20_0000
                              + 0x1000_0000 * (Group(s, 4) % 16)
  {
    if |s| > 4 { LowBits(s[4]); }
  }

  lemma LowBits(b: byte)
    ensures Low7(b) % 16 == b % 16
  {
    assert b == Low7(b) + 128 * (b / 128);
  }

  lemma Truncate(low: nat, group: nat, high: nat)
    requires low < 0x1000_0000
    ensures (low + 0x1000_0000 * (group + 128 * high)) % TWO32 == low + 0x1000_0000 * (group % 16)
  {
    var nibble, rest := group % 16, group / 16;
    assert group == nibble + 16 * rest;
    var kept := low + 0x1000_0000 * nibble;
    assert low + 0x1000_0000 * (group + 128 * high) == kept + TWO32 * (rest + 8 * high);
    DropMultiple(kept, rest + 8 * high);
  }

  lemma DropMultiple(kept: nat, multiple: nat)
    requires kept < TWO32
    ensures (kept + TWO32 * multiple) % TWO32 == kept
  {
  }

  /** The loop of `parse_uint64` over the bytes from the fifth on: the group at `i` carries weight 2^(7i). */
  function HighGroups(s: seq<byte>, i: nat, weight: nat): nat
    requires i <= |s|
    decreases |s| - i
  {
    if i == |s| then 0 else Low7(s[i]) * weight + HighGroups(s, i + 1, weight * 128)
  }

  function ParseUInt64(s: seq<byte>): u64
    requires |s| > 0
  {
    if |s| < 5 then ParseUInt32(s)
    else Wrap64(Low7(s[0]) + Low7(s[1]) * 0x80 + Low7(s[2]) * 0x4000 + Low7(s[3]) * 0x20_0000
                + HighGroups(s, 4, 0x1000_0000))
  }

  lemma {:induction false} HighGroupsValue(s: seq<byte>, i: nat, weight: nat)
    requires i <= |s|
    ensures HighGroups(s, i, weight) == weight * VarintValue(s[i..])
    decreases |s| - i
  {
    if i < |s| {
      HighGroupsValue(s, i + 1, weight * 128);
      assert s[i..][1..] == s[i + 1..];
      var v := VarintValue(s[i + 1..]);
      assert (weight * 128) * v == weight * (128 * v);
      assert weight * (Low7(s[i]) + 128 * v) == weight * (Low7(s[i])) + weight * (128 * v);
    }
  }

  lemma ParseUInt64Value(s: seq<byte>)
    requires |s| > 0
    ensures ParseUInt64(s) == VarintValue(s) % TWO64
  {
    if |s| < 5 {
      ParseUInt32Value(s);
      assert ParseUInt32(s) == VarintValue(s) by { ShortValue(s); }
    } else {
      HighGroupsValue(s, 4, 0x1000_0000);
      ValueOfFour(s);
    }
  }

  lemma ShortValue(s: seq<byte>)
    requires |s| < 5
    ensures VarintValue(s) < TWO32
  {
    ValueOfFour(s);
  }

  // ---------------------------------------------------------------------------------------------
  // Tags, length prefixes and fixed-width numbers
  // ---------------------------------------------------------------------------------------------

  const WIRE_VARINT: nat := 0
  const WIRE_64BIT: nat := 1
  const WIRE_PREFIXED: nat := 2
  const WIRE_32BIT: nat := 5

  function Tag(id: u32, wire: nat): (r: seq<byte>)
    requires wire < 8
    ensures 1 <= |r| <= 5
  {
    VarintLengths();
    Varint(id * 8 + wire)
  }

  /** A length prefix and the bytes it announces. */
  function Prefixed(s: seq<byte>): (r: seq<byte>)
    ensures |r| == |Varint(|s|)| + |s|
  {
    Varint(|s|) + s
  }

  function LittleEndian32(n: u32): (r: seq<byte>)
    ensures |r| == 4
  {
    [n % 256, n / 0x100 % 256, n / 0x1_0000 % 256, n / 0x100_0000]
  }

  function FromLittleEndian32(s: seq<byte>): u32
    requires |s| >= 4
  {
    s[0] as int + s[1] as int * 0x100 + s[2] as int * 0x1_0000 + s[3] as int * 0x100_0000
  }

  function LittleEndian64(n: u64): (r: seq<byte>)
    ensures |r| == 8
  {
    LittleEndian32(n % TWO32) + LittleEndian32(n / TWO32)
  }

  function FromLittleEndian64(s: seq<byte>): u64
    requires |s| >= 8
  {
    FromLittleEndian32(s[..4]) + FromLittleEndian32(s[4..8]) * TWO32
  }

  lemma LittleEndian32Inverse(n: u32)
    ensures FromLittleEndian32(LittleEndian32(n)) == n
  {
    var a := n / 0x100;
    var b := a / 0x100;
    assert n / 0x1_0000 == b && n / 0x100_0000 == b / 0x100;
    assert n == n % 0x100 + 0x100 * a && a == a % 0x100 + 0x100 * b && b == b % 0x100 + 0x100 * (b / 0x100);
  }

  lemma LittleEndian64Inverse(n: u64)
    ensures FromLittleEndian64(LittleEndian64(n)) == n
  {
    var s := LittleEndian64(n);
    assert s[..4] == LittleEndian32(n % TWO32);
    assert s[4..8] == LittleEndian32(n / TWO32);
    LittleEndian32Inverse(n % TWO32);
    LittleEndian32Inverse(n / TWO32);
  }

  /** `tag_pack` followed by `out[0] |= wire`: adding the wire type touches only the first byte. */
  lemma TagFromShiftedId(id: u32, wire: nat)
    requires wire < 8
    ensures Varint(id * 8)[0] % 8 == 0
    ensures Tag(id, wire) == Varint(id * 8)[0 := Varint(id * 8)[0] + wire]
  {
    var n := id * 8;
    if n >= 128 {
      assert (n + wire) / 128 == n / 128;
      assert (n + wire) % 128 == n % 128 + wire;
    }
  }
}
