/**
 `protobuf_c_message_pack`: serialises a message into a buffer, in place.  A pointer into the output is an
 array and an offset.  Every method states the whole buffer afterwards: the bytes it is for, at its offset, and
 everything else as before.
 */
module Packing {
  import opened Bits
  import opened Seqs
  import opened Wire
  import opened Schema
  import opened Encoding
  import opened Reading
  import opened PackedSize

  /** `before` with the bytes from `at` on replaced by `s`. */
  function Written(before: seq<byte>, at: nat, s: seq<byte>): (r: seq<byte>)
    requires at + |s| <= |before|
    ensures |r| == |before|
  {
    before[..at] + s + before[at + |s|..]
  }

  lemma WrittenAppend(before: seq<byte>, at: nat, s: seq<byte>, t: seq<byte>)
    requires at + |s| + |t| <= |before|
    ensures Written(Written(before, at, s), at + |s|, t) == Written(before, at, s + t)
  {
  }

  lemma WrittenNothing(before: seq<byte>, at: nat)
    requires at <= |before|
    ensures Written(before, at, []) == before
  {
  }

  // ---------------------------------------------------------------------------------------------
  // Bytes
  // ---------------------------------------------------------------------------------------------

  method Put(out: array<byte>, at: nat, b: byte)
    requires at < out.Length
    modifies out
    ensures out[..] == Written(old(out[..]), at, [b])
  {
    out[at] := b;
  }

  method MemCpy(out: array<byte>, at: nat, s: seq<byte>)
    requires at + |s| <= out.Length
    modifies out
    ensures out[..] == Written(old(out[..]), at, s)
  {
    forall i | 0 <= i < |s| { out[at + i] := s[i]; }
  }

  /** The two ranges may overlap. */
  method MemMove(out: array<byte>, dst: nat, src: nat, n: nat)
    requires dst + n <= out.Length && src + n <= out.Length
    modifies out
    ensures out[..] == Written(old(out[..]), dst, old(out[src..src + n]))
  {
    forall i | 0 <= i < n { out[dst + i] := out[src + i]; }
  }

  /** Writes one group with its continuation bit; `rest` is `v >> 7`. */
  method Continue(v: nat, out: array<byte>, at: nat) returns (rest: nat)
    requires at < out.Length
    modifies out
    ensures out[..] == Written(old(out[..]), at, [v % 128 + 128])
    ensures rest == v / 128
  {
    OrContinue(v);
    Put(out, at, Or(v, 0x80) % 0x100);
    rest := v / 128;
  }

  /** Half-way through a varint: `done` is written and `v` is left. */
  ghost predicate Emitting(before: seq<byte>, at: nat, value: nat, done: seq<byte>, v: nat, out: seq<byte>) {
    && Varint(value) == done + Varint(v)
    && at + |done| <= |before|
    && out == Written(before, at, done)
  }

  lemma EmitStart(before: seq<byte>, at: nat, value: nat)
    requires at <= |before|
    ensures Emitting(before, at, value, [], value, before)
  {
    WrittenNothing(before, at);
  }

  lemma EmitStep(before: seq<byte>, at: nat, value: nat, done: seq<byte>, v: nat, out: seq<byte>, next: seq<byte>)
    requires Emitting(before, at, value, done, v, out) && v >= 128 && at + |Varint(value)| <= |before|
    requires next == Written(out, at + |done|, [v % 128 + 128])
    ensures Emitting(before, at, value, done + [v % 128 + 128], v / 128, next)
  {
    assert Varint(v) == [v % 128 + 128] + Varint(v / 128);
    Assoc(done, [v % 128 + 128], Varint(v / 128));
    WrittenAppend(before, at, done, [v % 128 + 128]);
  }

  lemma EmitRoom(before: seq<byte>, at: nat, value: nat, done: seq<byte>, v: nat, out: seq<byte>)
    requires Emitting(before, at, value, done, v, out) && at + |Varint(value)| <= |before|
    ensures at + |done| < |before| == |out|
  {
  }

  lemma EmitEnd(before: seq<byte>, at: nat, value: nat, done: seq<byte>, v: nat, out: seq<byte>, next: seq<byte>)
    requires Emitting(before, at, value, done, v, out) && v < 128 && at + |Varint(value)| <= |before|
    requires next == Written(out, at + |done|, [v])
    ensures |Varint(value)| == |done| + 1 && next == Written(before, at, Varint(value))
  {
    assert Varint(v) == [v];
    WrittenAppend(before, at, done, [v]);
  }

  method EmitGroup(ghost before: seq<byte>, at: nat, ghost value: nat, ghost done: seq<byte>, v: nat, out: array<byte>, rv: nat)
    returns (rest: nat, ghost done': seq<byte>)
    requires Emitting(before, at, value, done, v, out[..]) && v >= 128 && rv == |done|
    requires at + |Varint(value)| <= |before| == out.Length
    modifies out
    ensures rest == v / 128 && |done'| == rv + 1 && Emitting(before, at, value, done', rest, out[..])
  {
    hide Emitting, Varint;
    ghost var mid := out[..];
    EmitRoom(before, at, value, done, v, mid);
    rest := Continue(v, out, at + rv);
    done' := done + [v % 128 + 128];
    EmitStep(before, at, value, done, v, mid, out[..]);
  }

  method UInt32Pack(value: u32, out: array<byte>, at: nat) returns (rv: nat)
    requires at + |Varint(value)| <= out.Length
    modifies out
    ensures rv == |Varint(value)| && out[..] == Written(old(out[..]), at, Varint(value))
  {
    hide Emitting, Varint, Written;
    ghost var before, done := out[..], [];
    var v: nat := value;
    rv := 0;
    EmitStart(before, at, value);
    if v >= 0x80 {
      v, done := EmitGroup(before, at, value, done, v, out, rv);
      rv := rv + 1;
      if v >= 0x80 {
        v, done := EmitGroup(before, at, value, done, v, out, rv);
        rv := rv + 1;
        if v >= 0x80 {
          v, done := EmitGroup(before, at, value, done, v, out, rv);
          rv := rv + 1;
          if v >= 0x80 {
            v, done := EmitGroup(before, at, value, done, v, out, rv);
            rv := rv + 1;
          }
        }
      }
    }
    ghost var mid := out[..];
    EmitRoom(before, at, value, done, v, mid);
    Put(out, at + rv, v);
    EmitEnd(before, at, value, done, v, mid, out[..]);
    rv := rv + 1;
  }

  /** The low seven bits, and what is above them. */
  function Seven(n: int): (r: nat)
    ensures r < 128
  {
    n % 128
  }

  function Above(n: nat): nat { n / 128 }

  lemma ShiftDown(a: int, b: int)
    ensures (a * 128 + b) / 128 == a + b / 128 && (a * 128 + b) % 128 == b % 128
  {
  }

  /** Shifting by 7 bits at a time is shifting by 14, 21 and 28. */
  lemma Shifts(n: int)
    ensures n / 0x4000 == n / 128 / 128 && n / 0x20_0000 == n / 128 / 128 / 128 && n / 0x1000_0000 == n / 128 / 128 / 128 / 128
  {
    Shift(n, 128);
    Shift(n, 0x4000);
    Shift(n, 0x20_0000);
  }

  lemma Shift(n: int, m: int)
    requires m == 128 || m == 0x4000 || m == 0x20_0000
    ensures n / (m * 128) == n / m / 128
  {
  }

  /** The first four groups of a 64-bit number come from its low half, the fifth straddles the halves. */
  lemma Halves(value: nat)
    ensures var hi, lo := value / 0x1_0000_0000, value % 0x1_0000_0000;
      && Seven(value) == Seven(lo) && Seven(Above(value)) == Seven(lo / 128)
      && Seven(Above(Above(value))) == Seven(lo / 0x4000) && Seven(Above(Above(Above(value)))) == Seven(lo / 0x20_0000)
      && Above(Above(Above(Above(value)))) == hi * 16 + lo / 0x1000_0000
  {
    var hi, lo := value / 0x1_0000_0000, value % 0x1_0000_0000;
    assert value == (hi * 0x200_0000) * 128 + lo;
    Shifts(lo);
    ShiftDown(hi * 0x200_0000, lo);
    ShiftDown(hi * 0x4_0000, lo / 128);
    ShiftDown(hi * 0x800, lo / 128 / 128);
    ShiftDown(hi * 16, lo / 128 / 128 / 128);
  }

  /** `EmitGroup`, with the group taken from another number that agrees in its low seven bits. */
  method EmitFrom(ghost before: seq<byte>, at: nat, ghost value: nat, ghost done: seq<byte>, ghost v: nat, bits: nat, out: array<byte>, rv: nat)
    returns (ghost done': seq<byte>)
    requires Emitting(before, at, value, done, v, out[..]) && v >= 128 && rv == |done| && Seven(bits) == Seven(v)
    requires at + |Varint(value)| <= |before| == out.Length
    modifies out
    ensures |done'| == rv + 1 && Emitting(before, at, value, done', Above(v), out[..])
  {
    hide Emitting, Varint;
    ghost var mid := out[..];
    EmitRoom(before, at, value, done, v, mid);
    OrContinue(bits);
    Put(out, at + rv, Or(bits, 0x80) % 0x100);
    done' := done + [v % 128 + 128];
    EmitStep(before, at, value, done, v, mid, out[..]);
  }

  /** The fifth byte: three or four bits from the high half above four from the low half. */
  lemma FifthByte(hi: u32, lo: u32)
    ensures var v := hi * 16 + lo / 0x1000_0000;
      && Or(hi * 16, lo / 0x1000_0000) == v
      && Seven(Or(hi % 8 * 16, lo / 0x1000_0000)) == Seven(v) && Above(v) == hi / 8
      && (if hi < 8 then v < 128 else v >= 128)
  {
    hide Or, Pow2;
    var top := lo / 0x1000_0000;
    Pow2Of4();
    OrDisjoint(hi, top, 4);
    OrDisjoint(hi % 8, top, 4);
    StraddledGroup(hi, top);
  }

  lemma Pow2Of4()
    ensures Pow2(4) == 16
  {
    assert Pow2(2) == 4;
  }

  lemma StraddledGroup(hi: nat, top: nat)
    requires top < 16
    ensures (hi * 16 + top) % 128 == hi % 8 * 16 + top && (hi * 16 + top) / 128 == hi / 8
  {
    var q, r := hi / 8, hi % 8;
    assert hi * 16 + top == q * 128 + (r * 16 + top);
    ShiftDown(q, r * 16 + top);
  }

  lemma SmallVarint(value: nat)
    requires value >= 0x1000_0000
    ensures value >= 128 && Above(value) >= 128 && Above(Above(value)) >= 128 && Above(Above(Above(value))) >= 128
  {
    Shifts(value);
  }

  /** The loop at the end of `uint64_pack`. */
  method EmitRest(ghost before: seq<byte>, at: nat, ghost value: nat, ghost sent: seq<byte>, high: nat, out: array<byte>, start: nat)
    returns (rv: nat)
    requires Emitting(before, at, value, sent, high, out[..]) && start == |sent|
    requires at + |Varint(value)| <= |before| == out.Length
    modifies out
    ensures rv == |Varint(value)| && out[..] == Written(before, at, Varint(value))
  {
    hide Emitting, Varint, Written;
    ghost var done := sent;
    var hi := high;
    rv := start;
    while hi >= 128
      invariant rv == |done| && Emitting(before, at, value, done, hi, out[..])
    {
      hi, done := EmitGroup(before, at, value, done, hi, out, rv);
      rv := rv + 1;
    }
    ghost var mid := out[..];
    EmitRoom(before, at, value, done, hi, mid);
    Put(out, at + rv, hi);
    EmitEnd(before, at, value, done, hi, mid, out[..]);
    rv := rv + 1;
  }

  method UInt64Pack(value: u64, out: array<byte>, at: nat) returns (rv: nat)
    requires at + |Varint(value)| <= out.Length
    modifies out
    ensures rv == |Varint(value)| && out[..] == Written(old(out[..]), at, Varint(value))
  {
    hide *;
    var hi: u32, lo: u32 := value / 0x1_0000_0000, value % 0x1_0000_0000;
    if hi == 0 {
      rv := UInt32Pack(lo, out, at);
      return;
    }
    ghost var before, done := out[..], [];
    EmitStart(before, at, value);
    LargeValue(value);
    SmallVarint(value);
    Halves(value);
    FifthByte(hi, lo);
    done := EmitFrom(before, at, value, done, value, lo, out, 0);
    done := EmitFrom(before, at, value, done, Above(value), lo / 128, out, 1);
    done := EmitFrom(before, at, value, done, Above(Above(value)), lo / 0x4000, out, 2);
    done := EmitFrom(before, at, value, done, Above(Above(Above(value))), lo / 0x20_0000, out, 3);
    ghost var v := Above(Above(Above(Above(value))));
    if hi < 8 {
      ghost var mid := out[..];
      EmitRoom(before, at, value, done, v, mid);
      Put(out, at + 4, Or(hi * 16, lo / 0x1000_0000));
      EmitEnd(before, at, value, done, v, mid, out[..]);
      return 5;
    }
    done := EmitFrom(before, at, value, done, v, Or(hi % 8 * 16, lo / 0x1000_0000), out, 4);
    rv := EmitRest(before, at, value, done, hi / 8, out, 5);
  }

  lemma LargeValue(value: u64)
    ensures value / 0x1_0000_0000 != 0 ==> value >= 0x1000_0000
  {
  }

  /** A negative number's 64-bit pattern, seven bits at a time. */
  lemma SignExtended(value: i32)
    requires value < 0
    ensures var u := TWO64 + value;
      && Wrap64(value) == u && u >= 0x1000_0000 && Seven(Wrap32(value)) == Seven(u) && Seven(Wrap32(value / 128)) == Seven(Above(u))
      && Seven(Wrap32(value / 0x4000)) == Seven(Above(Above(u)))
      && Seven(Wrap32(value / 0x20_0000)) == Seven(Above(Above(Above(u))))
      && Seven(Wrap32(value / 0x1000_0000)) == Seven(Above(Above(Above(Above(u)))))
      && Above(Above(Above(Above(u)))) >= 128 && Above(Above(Above(Above(Above(u))))) == 0x1FFF_FFFF
  {
    hide Wrap32;
    var u: int := TWO64 + value;
    Shifts(value);
    ShiftDown(TWO64 / 128, value);
    ShiftDown(TWO64 / 0x4000, value / 128);
    ShiftDown(TWO64 / 0x20_0000, value / 128 / 128);
    ShiftDown(TWO64 / 0x1000_0000, value / 128 / 128 / 128);
    ShiftDown(TWO64 / 0x8_0000_0000, value / 128 / 128 / 128 / 128);
    WrapGroup(value); WrapGroup(value / 128); WrapGroup(value / 128 / 128); WrapGroup(value / 128 / 128 / 128);
    WrapGroup(value / 128 / 128 / 128 / 128);
  }

  lemma WrapGroup(n: int)
    ensures Wrap32(n) % 128 == n % 128
  {
    assert n == (n / TWO32) * TWO32 + n % TWO32;
    ShiftDown((n / TWO32) * 0x200_0000, n % TWO32);
  }

  method Int32Pack(value: i32, out: array<byte>, at: nat) returns (rv: nat)
    requires at + |Varint(Wrap64(value))| <= out.Length
    modifies out
    ensures rv == |Varint(Wrap64(value))| && out[..] == Written(old(out[..]), at, Varint(Wrap64(value)))
  {
    hide Emitting, Varint, Written, Or, Wrap32, Wrap64, Seven, Above;
    if value < 0 {
      ghost var before, done, u: nat := out[..], [], TWO64 + value;
      SignExtended(value);
      EmitStart(before, at, u);
      SmallVarint(u);
      done := EmitFrom(before, at, u, done, u, Wrap32(value), out, 0);
      done := EmitFrom(before, at, u, done, Above(u), Wrap32(value / 128), out, 1);
      done := EmitFrom(before, at, u, done, Above(Above(u)), Wrap32(value / 0x4000), out, 2);
      done := EmitFrom(before, at, u, done, Above(Above(Above(u))), Wrap32(value / 0x20_0000), out, 3);
      done := EmitFrom(before, at, u, done, Above(Above(Above(Above(u)))), Wrap32(value / 0x1000_0000), out, 4);
      EmitOnes(before, at, u, done, out);
      rv := 10;
    } else {
      NotNegative(value);
      rv := UInt32Pack(value, out, at);
    }
  }

  lemma NotNegative(value: i32)
    requires value >= 0
    ensures Wrap64(value) == value
  {
  }

  /** `out[5] = out[6] = out[7] = out[8] = 0xff; out[9] = 0x01` */
  method EmitOnes(ghost before: seq<byte>, at: nat, ghost value: nat, ghost done: seq<byte>, out: array<byte>)
    requires Emitting(before, at, value, done, 0x1FFF_FFFF, out[..]) && |done| == 5
    requires at + |Varint(value)| <= |before| == out.Length
    modifies out
    ensures |Varint(value)| == 10 && out[..] == Written(before, at, Varint(value))
  {
    hide Emitting, Varint, Written;
    ghost var sent: seq<byte> := done;
    ghost var v: nat := 0x1FFF_FFFF;
    for i := 5 to 9
      invariant |sent| == i && v == if i == 5 then 0x1FFF_FFFF else if i == 6 then 0x3F_FFFF else if i == 7 then 0x7FFF else if i == 8 then 0xFF else 1
      invariant Emitting(before, at, value, sent, v, out[..])
    {
      ghost var mid := out[..];
      EmitRoom(before, at, value, sent, v, mid);
      Put(out, at + i, 0xff);
      EmitStep(before, at, value, sent, v, mid, out[..]);
      sent, v := sent + [v % 128 + 128], v / 128;
    }
    ghost var mid := out[..];
    EmitRoom(before, at, value, sent, v, mid);
    Put(out, at + 9, 1);
    EmitEnd(before, at, value, sent, v, mid, out[..]);
  }

  // ---------------------------------------------------------------------------------------------
  // Fields
  // ---------------------------------------------------------------------------------------------

  method TagPack(id: u32, out: array<byte>, at: nat) returns (rv: nat)
    requires at + |Varint(id * 8)| <= out.Length
    modifies out
    ensures rv == |Varint(id * 8)| && out[..] == Written(old(out[..]), at, Varint(id * 8))
  {
    hide Varint, Written;
    if id < 0x2000_0000 { rv := UInt32Pack(id * 8, out, at); } else { rv := UInt64Pack(id * 8, out, at); }
  }

  lemma TagByte(before: seq<byte>, at: nat, id: u32, wire: WireType)
    requires at + |Varint(id * 8)| <= |before|
    ensures |Varint(id * 8)| == |Tag(id, wire)| && at < |before|
    ensures var mid := Written(before, at, Varint(id * 8));
      Or(mid[at], wire) < 256 && mid[at := Or(mid[at], wire)] == Written(before, at, Tag(id, wire))
  {
    TagFromShiftedId(id, wire);
    var v := Varint(id * 8);
    var b := v[0];
    hide *;
    WrittenFirst(before, at, v, b as int + wire);
    Pow2Of3();
    OrDisjoint(b / 8, wire, 3);
    assert b == b / 8 * 8;
  }

  lemma Pow2Of3()
    ensures Pow2(3) == 8
  {
    assert Pow2(1) == 2;
  }

  lemma WrittenFirst(before: seq<byte>, at: nat, s: seq<byte>, b: byte)
    requires at + |s| <= |before| && s != []
    ensures Written(before, at, s)[at] == s[0]
    ensures Written(before, at, s)[at := b] == Written(before, at, s[0 := b])
  {
  }

  /** `tag_pack`, and the `|=` by which every caller adds the wire type to the first byte. */
  method TagWirePack(id: u32, wire: WireType, out: array<byte>, at: nat) returns (rv: nat)
    requires at + |Tag(id, wire)| <= out.Length
    modifies out
    ensures rv == |Tag(id, wire)| && out[..] == Written(old(out[..]), at, Tag(id, wire))
  {
    hide Varint, Written, Tag, Or;
    ghost var before := out[..];
    TagFromShiftedId(id, wire);
    rv := TagPack(id, out, at);
    TagByte(before, at, id, wire);
    out[at] := Or(out[at], wire);
  }

  lemma Glue(before: seq<byte>, at: nat, s: seq<byte>, t: seq<byte>, mid: seq<byte>, out: seq<byte>)
    requires at + |s| + |t| <= |before| && mid == Written(before, at, s) && out == Written(mid, at + |s|, t)
    ensures out == Written(before, at, s + t)
  {
    WrittenAppend(before, at, s, t);
  }

  /** `string_pack` and `binary_data_pack`: a length and the bytes. */
  method PrefixedPack(s: seq<byte>, out: array<byte>, at: nat) returns (rv: nat)
    requires |s| < TWO31 && at + |Prefixed(s)| <= out.Length
    modifies out
    ensures rv == |Prefixed(s)| && out[..] == Written(old(out[..]), at, Prefixed(s))
  {
    hide Varint, Written;
    ghost var before := out[..];
    rv := UInt32Pack(|s|, out, at);
    ghost var mid := out[..];
    MemCpy(out, at + rv, s);
    Glue(before, at, Varint(|s|), s, mid, out[..]);
    rv := rv + |s|;
  }

  /** Moving the body back to make room for a longer prefix, then writing the prefix. */
  lemma Shifted(before: seq<byte>, at: nat, gap: nat, body: seq<byte>, prefix: seq<byte>, out1: seq<byte>, out2: seq<byte>, out3: seq<byte>)
    requires gap <= |prefix| && at + |prefix| + |body| <= |before|
    requires out1 == Written(before, at + gap, body)
    requires out2 == Written(out1, at + |prefix|, body)
    requires out3 == Written(out2, at, prefix)
    ensures out3 == Written(before, at, prefix + body)
    ensures out1[at + gap..at + gap + |body|] == body
  {
  }

  lemma Constants()
    ensures WIRE_PREFIXED == 2 && TWO31 == 0x8000_0000 && TWO32 == 0x1_0000_0000
  {
  }

  lemma PrefixedParts(s: seq<byte>)
    requires |s| < TWO31
    ensures Prefixed(s) == Varint(|s|) + s && 1 <= |Varint(|s|)| <= 5 && UInt32Size(|s|) == |Varint(|s|)|
    ensures |Prefixed(s)| == |Varint(|s|)| + |s|
  {
    VarintLengths();
  }

  lemma MessageShape(S: Schema, d: nat, m: Message)
    requires MessageOk(S, d, m)
    ensures d < |S| && |Encode(S, d, m)| < 0x8000_0000
  {
    hide Encode;
  }

  /** A sub-message is packed one byte in, as if its length took one byte, and moved if it takes more. */
  method PrefixedMessagePack(S: Schema, d: nat, m: Message, out: array<byte>, at: nat) returns (rv: nat)
    requires SchemaOk(S) && MessageOk(S, d, m) && at + |Prefixed(Encode(S, d, m))| <= out.Length
    modifies out
    ensures rv == |Prefixed(Encode(S, d, m))| && out[..] == Written(old(out[..]), at, Prefixed(Encode(S, d, m)))
    decreases m, 1
  {
    hide *;
    Constants();
    MessageShape(S, d, m);
    ghost var before, body := out[..], Encode(S, d, m);
    PrefixedParts(body);
    rv := MessagePack(S, d, m, out, at + 1);
    ghost var out1 := out[..];
    var size := UInt32Size(rv);
    if size != 1 { MemMove(out, at + size, at + 1, rv); }
    ghost var out2 := out[..];
    SliceOfWritten(before, at + 1, body);
    if size == 1 { Rewritten(before, at + 1, body); }
    var k := UInt32Pack(rv, out, at);
    Shifted(before, at, 1, body, Varint(|body|), out1, out2, out[..]);
    rv := k + rv;
  }

  lemma SliceOfWritten(before: seq<byte>, at: nat, s: seq<byte>)
    requires at + |s| <= |before|
    ensures Written(before, at, s)[at..at + |s|] == s
  {
  }

  lemma Rewritten(before: seq<byte>, at: nat, s: seq<byte>)
    requires at + |s| <= |before|
    ensures Written(Written(before, at, s), at, s) == Written(before, at, s)
  {
  }

  /** The switch of `required_field_pack`, after the tag. */
  method PayloadPack(S: Schema, t: FieldType, v: Value, out: array<byte>, at: nat) returns (rv: nat)
    requires SchemaOk(S) && ValueOk(S, t, v) && |Payload(S, t, v)| < TWO31 && at + |Payload(S, t, v)| <= out.Length
    modifies out
    ensures rv == |Payload(S, t, v)| && out[..] == Written(old(out[..]), at, Payload(S, t, v))
    decreases v, 0
  {
    hide SchemaOk, MessageOk, Encode, Varint, LittleEndian32, LittleEndian64, Written;
    match v
    case V32(n) =>
      if t.SINT32? { rv := UInt32Pack(ZigZag32(AsInt32(n)), out, at); }
      else if t.ENUM? || t.INT32? { rv := Int32Pack(AsInt32(n), out, at); }
      else if t.UINT32? { rv := UInt32Pack(n, out, at); }
      else if t.BOOL? { BooleanByte(n); Put(out, at, if n != 0 then 1 else 0); rv := 1; }
      else { MemCpy(out, at, LittleEndian32(n)); rv := 4; }
    case V64(n) =>
      if t.SINT64? { rv := UInt64Pack(ZigZag64(AsInt64(n)), out, at); }
      else if t.INT64? || t.UINT64? { rv := UInt64Pack(n, out, at); }
      else { MemCpy(out, at, LittleEndian64(n)); rv := 8; }
    case Str(s) => rv := PrefixedPack(s, out, at);
    case Bin(b) => rv := PrefixedPack(b, out, at);
    case Msg(m) => rv := PrefixedMessagePack(S, t.sub, m, out, at);
  }

  lemma BooleanByte(n: u32)
    ensures Varint(ToVarint(BOOL, V32(n))) == [if n != 0 then 1 else 0]
  {
  }

  method RequiredFieldPack(S: Schema, f: Field, v: Value, out: array<byte>, at: nat) returns (rv: nat)
    requires SchemaOk(S) && ValueOk(S, f.typ, v) && f.id < TWO32 && |Payload(S, f.typ, v)| < TWO31
    requires at + |EncodeMember(ElementMember(S, f, v))| <= out.Length
    modifies out
    ensures rv == |EncodeMember(ElementMember(S, f, v))|
    ensures out[..] == Written(old(out[..]), at, EncodeMember(ElementMember(S, f, v)))
    decreases v, 1
  {
    hide SchemaOk, ValueOk, Payload, Tag, Written;
    ghost var before, tag, payload := out[..], Tag(f.id, WireOf(f.typ)), Payload(S, f.typ, v);
    assert EncodeMember(ElementMember(S, f, v)) == tag + payload;
    rv := TagWirePack(f.id, WireOf(f.typ), out, at);
    ghost var mid := out[..];
    var n := PayloadPack(S, f.typ, v, out, at + rv);
    Glue(before, at, tag, payload, mid, out[..]);
    rv := rv + n;
  }

  /** The elements of a packed field, one behind the other. */
  method PayloadsPack(S: Schema, t: FieldType, vs: seq<Value>, out: array<byte>, at: nat) returns (rv: nat)
    requires SchemaOk(S) && Packable(t) && at + |Payloads(S, t, vs, |vs|)| <= out.Length
    requires forall k | 0 <= k < |vs| :: ValueOk(S, t, vs[k]) && |Payload(S, t, vs[k])| < TWO31
    modifies out
    ensures rv == |Payloads(S, t, vs, |vs|)|
    ensures out[..] == Written(old(out[..]), at, Payloads(S, t, vs, |vs|))
    decreases vs, 1
  {
    hide SchemaOk, ValueOk, Payload, Payloads, Written, Packable;
    ghost var before := out[..];
    rv := 0;
    NoPayload(S, t, vs);
    WrittenNothing(before, at);
    for i := 0 to |vs|
      invariant rv == |Payloads(S, t, vs, i)| <= |Payloads(S, t, vs, |vs|)|
      invariant out[..] == Written(before, at, Payloads(S, t, vs, i))
    {
      PayloadsUnfold(S, t, vs, i + 1);
      PayloadsGrow(S, t, vs, i + 1, |vs|);
      ghost var mid := out[..];
      var n := PayloadPack(S, t, vs[i], out, at + rv);
      Glue(before, at, Payloads(S, t, vs, i), Payload(S, t, vs[i]), mid, out[..]);
      rv := rv + n;
    }
  }

  lemma {:induction false} PayloadsGrow(S: Schema, t: FieldType, vs: seq<Value>, k: nat, n: nat)
    requires k <= n <= |vs|
    ensures |Payloads(S, t, vs, k)| <= |Payloads(S, t, vs, n)|
    decreases n
  {
    hide Payload;
    if k < n { PayloadsGrow(S, t, vs, k, n - 1); }
  }

  /** The length prefix of a packed field takes what its minimum length takes, or one byte more: 10 < 128. */
  lemma LengthSizes(S: Schema, t: FieldType, vs: seq<Value>)
    requires Packable(t) && |Payloads(S, t, vs, |vs|)| < TWO31 && forall k | 0 <= k < |vs| :: KindOk(t, vs[k])
    ensures var min, len := MinSize(t) * |vs|, |Payloads(S, t, vs, |vs|)|;
      && min <= len < TWO32 && UInt32Size(min) == |Varint(min)| && UInt32Size(len) == |Varint(len)|
      && (UInt32Size(len) == UInt32Size(min) || UInt32Size(len) == UInt32Size(min) + 1)
  {
    hide Payloads, Varint;
    ScalarLengths(S, t, vs, |vs|);
    VarintTenfold(MinSize(t) * |vs|, |Payloads(S, t, vs, |vs|)|);
  }

  lemma PackedBytes(S: Schema, f: Field, vs: seq<Value>)
    requires f.id < TWO32 && f.packed && vs != []
    ensures FieldBytes(S, f, Many(vs)) == Tag(f.id, WIRE_PREFIXED) + Prefixed(Payloads(S, f.typ, vs, |vs|))
  {
    hide Payloads, Tag, Prefixed;
    EncodeSingle(Member(f.id, WIRE_PREFIXED, Prefixed(Payloads(S, f.typ, vs, |vs|))));
  }

  /**
   The packed case of `repeated_field_pack`: the payload goes where it belongs if the length prefix is as short as
   the minimum length allows, and is moved one byte further if it is not.  The assertion is the source's.
   */
  method PackedFieldPack(S: Schema, f: Field, vs: seq<Value>, out: array<byte>, at: nat) returns (rv: nat)
    requires FieldFits(S, f, Many(vs)) && f.packed && at + |FieldBytes(S, f, Many(vs))| <= out.Length
    modifies out
    ensures rv == |FieldBytes(S, f, Many(vs))|
    ensures out[..] == Written(old(out[..]), at, FieldBytes(S, f, Many(vs)))
    decreases vs, 2
  {
    hide *;
    Constants();
    ghost var before := out[..];
    ManyFits(S, f, vs);
    FitsSchema(S, f, Many(vs));
    if |vs| == 0 {
      NoElementBytes(S, f);
      WrittenNothing(before, at);
      return 0;
    }
    ghost var payload := Payloads(S, f.typ, vs, |vs|);
    PackedBytes(S, f, vs);
    LengthSizes(S, f.typ, vs);
    PrefixedParts(payload);
    var headerLen := TagWirePack(f.id, WIRE_PREFIXED, out, at);
    ghost var out0 := out[..];
    var lenStart := headerLen;
    var minLength := MinSize(f.typ) * |vs|;
    var lengthSizeMin := UInt32Size(minLength);
    headerLen := headerLen + lengthSizeMin;
    var payloadLen := PayloadsPack(S, f.typ, vs, out, at + headerLen);
    ghost var out1 := out[..];
    var actualLengthSize := UInt32Size(payloadLen);
    SliceOfWritten(out0, at + headerLen, payload);
    if lengthSizeMin != actualLengthSize {
      assert actualLengthSize == lengthSizeMin + 1;
      MemMove(out, at + headerLen + 1, at + headerLen, payloadLen);
      headerLen := headerLen + 1;
    } else {
      Rewritten(out0, at + headerLen, payload);
    }
    ghost var out2 := out[..];
    var k := UInt32Pack(payloadLen, out, at + lenStart);
    Shifted(out0, at + lenStart, lengthSizeMin, payload, Varint(|payload|), out1, out2, out[..]);
    Glue(before, at, Tag(f.id, WIRE_PREFIXED), Prefixed(payload), out0, out[..]);
    rv := headerLen + payloadLen;
  }

  lemma ElementsUnfold(S: Schema, f: Field, vs: seq<Value>, n: nat)
    requires 0 < n <= |vs|
    ensures EncodeMembers(ElementMembers(S, f, vs, n))
      == EncodeMembers(ElementMembers(S, f, vs, n - 1)) + EncodeMember(ElementMember(S, f, vs[n - 1]))
  {
    hide EncodeMembers, EncodeMember;
    EncodeMembersAppend(ElementMembers(S, f, vs, n - 1), [ElementMember(S, f, vs[n - 1])]);
    EncodeSingle(ElementMember(S, f, vs[n - 1]));
  }

  lemma {:induction false} ElementsGrow(S: Schema, f: Field, vs: seq<Value>, k: nat, n: nat)
    requires k <= n <= |vs|
    ensures |EncodeMembers(ElementMembers(S, f, vs, k))| <= |EncodeMembers(ElementMembers(S, f, vs, n))|
    decreases n
  {
    hide *;
    if k < n {
      ElementsGrow(S, f, vs, k, n - 1);
      ElementsUnfold(S, f, vs, n);
    }
  }

  lemma UnpackedBytes(S: Schema, f: Field, vs: seq<Value>)
    requires !f.packed
    ensures FieldBytes(S, f, Many(vs)) == EncodeMembers(ElementMembers(S, f, vs, |vs|))
    ensures EncodeMembers(ElementMembers(S, f, vs, 0)) == []
  {
  }

  method RepeatedFieldPack(S: Schema, f: Field, vs: seq<Value>, out: array<byte>, at: nat) returns (rv: nat)
    requires FieldFits(S, f, Many(vs)) && at + |FieldBytes(S, f, Many(vs))| <= out.Length
    modifies out
    ensures rv == |FieldBytes(S, f, Many(vs))|
    ensures out[..] == Written(old(out[..]), at, FieldBytes(S, f, Many(vs)))
    decreases vs, 3
  {
    hide *;
    if f.packed {
      rv := PackedFieldPack(S, f, vs, out, at);
      return;
    }
    ghost var before := out[..];
    ManyFits(S, f, vs);
    FitsSchema(S, f, Many(vs));
    UnpackedBytes(S, f, vs);
    WrittenNothing(before, at);
    rv := 0;
    for i := 0 to |vs|
      invariant rv == |EncodeMembers(ElementMembers(S, f, vs, i))|
      invariant rv <= |EncodeMembers(ElementMembers(S, f, vs, |vs|))|
      invariant out[..] == Written(before, at, EncodeMembers(ElementMembers(S, f, vs, i)))
    {
      ElementsUnfold(S, f, vs, i + 1);
      ElementsGrow(S, f, vs, i + 1, |vs|);
      ghost var mid := out[..];
      var n := RequiredFieldPack(S, f, vs[i], out, at + rv);
      Glue(before, at, EncodeMembers(ElementMembers(S, f, vs, i)), EncodeMember(ElementMember(S, f, vs[i])), mid, out[..]);
      rv := rv + n;
    }
  }

  lemma SingleBytes(S: Schema, f: Field, v: Value)
    requires !Skipped(f, v)
    ensures FieldBytes(S, f, One(v)) == EncodeMember(ElementMember(S, f, v))
  {
    hide EncodeMember, EncodeMembers, Skipped;
    EncodeSingle(ElementMember(S, f, v));
  }

  /** The label decides which of the source's five field packers runs; what they skip is `Unset` or `Skipped`. */
  method FieldPack(S: Schema, f: Field, slot: Slot, out: array<byte>, at: nat) returns (rv: nat)
    requires FieldFits(S, f, slot) && at + |FieldBytes(S, f, slot)| <= out.Length
    modifies out
    ensures rv == |FieldBytes(S, f, slot)| && out[..] == Written(old(out[..]), at, FieldBytes(S, f, slot))
    decreases slot, 4
  {
    hide *;
    FitsSchema(S, f, slot);
    WrittenNothing(out[..], at);
    match slot
    case Unset =>
      NoFieldBytes(S, f, slot);
      rv := 0;
    case One(v) =>
      if Skipped(f, v) {
        NoFieldBytes(S, f, slot);
        rv := 0;
      } else {
        OneFits(S, f, v);
        SingleBytes(S, f, v);
        rv := RequiredFieldPack(S, f, v, out, at);
      }
    case Many(vs) =>
      rv := RepeatedFieldPack(S, f, vs, out, at);
  }

  method UnknownFieldPack(mem: Member, out: array<byte>, at: nat) returns (rv: nat)
    requires at + |EncodeMember(mem)| <= out.Length
    modifies out
    ensures rv == |EncodeMember(mem)| && out[..] == Written(old(out[..]), at, EncodeMember(mem))
  {
    hide Tag, Written;
    ghost var before := out[..];
    rv := TagWirePack(mem.tag, mem.wire, out, at);
    ghost var mid := out[..];
    MemCpy(out, at + rv, mem.data);
    Glue(before, at, Tag(mem.tag, mem.wire), mem.data, mid, out[..]);
    rv := rv + |mem.data|;
  }

  lemma {:induction false} UnknownGrow(ms: seq<Member>, k: nat, n: nat)
    requires k <= n <= |ms|
    ensures |EncodeMembers(ms[..k])| <= |EncodeMembers(ms[..n])|
    decreases n
  {
    hide *;
    if k < n {
      UnknownGrow(ms, k, n - 1);
      EncodeSnoc(ms, n - 1);
    }
  }

  /**
   Packing writes exactly the serialised message at its offset, returns its length, and changes no other byte.
   `MessageSize` returns the same length, so a buffer of that size is enough.
   */
  method MessagePack(S: Schema, d: nat, m: Message, out: array<byte>, at: nat) returns (rv: nat)
    requires SchemaOk(S) && MessageOk(S, d, m) && at + |Encode(S, d, m)| <= out.Length
    modifies out
    ensures rv == |Encode(S, d, m)| && out[..] == Written(old(out[..]), at, Encode(S, d, m))
    decreases m, 0
  {
    hide *;
    ghost var before := out[..];
    EncodeSplit(S, d, m);
    NoFieldsYet(S, d, m);
    WrittenNothing(before, at);
    rv := 0;
    for i := 0 to |S[d].fields|
      invariant rv == |FieldPrefix(S, d, m, i)| <= |Encode(S, d, m)|
      invariant out[..] == Written(before, at, FieldPrefix(S, d, m, i))
    {
      MessageFits(S, d, m, i);
      PrefixShorter(S, d, m, i + 1);
      assert m.slots[i] < m;
      ghost var mid := out[..];
      var n := FieldPack(S, S[d].fields[i], m.slots[i], out, at + rv);
      Glue(before, at, FieldPrefix(S, d, m, i), FieldBytes(S, S[d].fields[i], m.slots[i]), mid, out[..]);
      rv := rv + n;
    }
    NothingToScan();
    ghost var fields := FieldPrefix(S, d, m, |m.slots|);
    Empty(fields);
    TakeAll(m.unknown);
    for i := 0 to |m.unknown|
      invariant rv == |fields + EncodeMembers(m.unknown[..i])| <= |Encode(S, d, m)|
      invariant out[..] == Written(before, at, fields + EncodeMembers(m.unknown[..i]))
    {
      EncodeSnoc(m.unknown, i);
      UnknownGrow(m.unknown, i + 1, |m.unknown|);
      Assoc(fields, EncodeMembers(m.unknown[..i]), EncodeMember(m.unknown[i]));
      ghost var mid := out[..];
      var n := UnknownFieldPack(m.unknown[i], out, at + rv);
      Glue(before, at, fields + EncodeMembers(m.unknown[..i]), EncodeMember(m.unknown[i]), mid, out[..]);
      rv := rv + n;
    }
  }
}
