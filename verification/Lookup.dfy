/**
 Finding a field by its id: the binary search over compressed id ranges, and the bitmap of required fields.
 Both are proved against the plain definitions: a search of all fields, and a set of indices.
 */
module Lookup {
  import opened Bits
  import opened Wire
  import opened Schema

  /** Ids behind range `r` are larger than all of its own. */
  lemma RangeOrder(fs: seq<Field>, ranges: seq<IntRange>, r: nat, s: nat)
    requires SortedIds(fs) && RangesOk(fs, ranges) && fs != [] && r < s < |ranges| - 1
    ensures ranges[r].start + (ranges[r + 1].orig - ranges[r].orig) <= ranges[s].start
  {
    var k, l := ranges[r + 1].orig - 1, ranges[s].orig;
    assert ranges[r].orig <= k < ranges[r + 1].orig && fs[k].id == ranges[r].start + (k - ranges[r].orig);
    assert ranges[s].orig <= l < ranges[s + 1].orig && fs[l].id == ranges[s].start;
    assert k < l && fs[k].id < fs[l].id;
  }

  /** Every field lies in one of the ranges. */
  lemma {:induction false} RangeOf(fs: seq<Field>, ranges: seq<IntRange>, i: nat, n: nat) returns (r: nat)
    requires RangesOk(fs, ranges) && fs != [] && n < |ranges| && i < ranges[n].orig
    ensures r < n && ranges[r].orig <= i < ranges[r + 1].orig && fs[i].id == ranges[r].start + (i - ranges[r].orig)
    decreases n
  {
    if ranges[n - 1].orig <= i { r := n - 1; } else { r := RangeOf(fs, ranges, i, n - 1); }
  }

  /** The ranges before `start` end below `value`, and those from `end` on begin above it. */
  ghost predicate Narrowed(ranges: seq<IntRange>, value: int, start: nat, end: nat) {
    && start <= end <= |ranges| - 1
    && (forall r | 0 <= r < start :: value >= ranges[r].start + (ranges[r + 1].orig - ranges[r].orig))
    && (forall r | end <= r < |ranges| - 1 :: value < ranges[r].start)
  }

  lemma NotFound(fs: seq<Field>, ranges: seq<IntRange>, value: int, start: nat, end: nat)
    requires SortedIds(fs) && RangesOk(fs, ranges) && fs != [] && Narrowed(ranges, value, start, end) && end <= start + 1
    requires end == start + 1 ==> value < ranges[start].start || value >= ranges[start].start + (ranges[start + 1].orig - ranges[start].orig)
    ensures FieldIndex(fs, value).None?
  {
    forall i | 0 <= i < |fs| ensures fs[i].id != value {
      var r := RangeOf(fs, ranges, i, |ranges| - 1);
    }
  }

  lemma Found(fs: seq<Field>, ranges: seq<IntRange>, value: int, r: nat)
    requires SortedIds(fs) && RangesOk(fs, ranges) && fs != [] && r < |ranges| - 1
    requires ranges[r].start <= value < ranges[r].start + (ranges[r + 1].orig - ranges[r].orig)
    ensures FieldIndex(fs, value) == Some((value - ranges[r].start + ranges[r].orig) as nat)
  {
    var k := value - ranges[r].start + ranges[r].orig;
    assert ranges[r].orig <= k < ranges[r + 1].orig;
    assert ranges[r + 1].orig <= |fs| by { if r + 1 < |ranges| - 1 { assert ranges[r + 1].orig < ranges[|ranges| - 1].orig; } }
    assert fs[k].id == value;
    FieldIndexOf(fs, k);
  }

  lemma NarrowDown(fs: seq<Field>, ranges: seq<IntRange>, value: int, start: nat, end: nat, mid: nat)
    requires SortedIds(fs) && RangesOk(fs, ranges) && fs != [] && Narrowed(ranges, value, start, end) && start <= mid < end
    ensures value < ranges[mid].start ==> Narrowed(ranges, value, start, mid)
    ensures value >= ranges[mid].start + (ranges[mid + 1].orig - ranges[mid].orig) ==> Narrowed(ranges, value, mid + 1, end)
  {
    hide RangesOk, SortedIds;
    if value < ranges[mid].start {
      forall r | mid < r < |ranges| - 1 ensures value < ranges[r].start {
        RangeOrder(fs, ranges, mid, r);
        RangeNonempty(fs, ranges, mid);
      }
    }
    if value >= ranges[mid].start + (ranges[mid + 1].orig - ranges[mid].orig) {
      forall r | 0 <= r < mid ensures value >= ranges[r].start + (ranges[r + 1].orig - ranges[r].orig) {
        RangeOrder(fs, ranges, r, mid);
        RangeNonempty(fs, ranges, mid);
      }
    }
  }

  lemma RangeNonempty(fs: seq<Field>, ranges: seq<IntRange>, r: nat)
    requires RangesOk(fs, ranges) && fs != [] && r < |ranges| - 1
    ensures ranges[r].orig < ranges[r + 1].orig
  {
  }

  /** `int_range_lookup`: the binary search finds exactly what looking at all the fields finds. */
  method IntRangeLookup(ghost fs: seq<Field>, ranges: seq<IntRange>, value: int) returns (index: int)
    requires SortedIds(fs) && RangesOk(fs, ranges)
    ensures index == match FieldIndex(fs, value) { case None => -1 case Some(i) => i }
  {
    var nRanges := if |ranges| == 0 then 0 else |ranges| - 1;
    if nRanges == 0 { return -1; }
    var start: nat, n: nat := 0, nRanges;
    while n > 1
      invariant Narrowed(ranges, value, start, start + n)
      decreases n
    {
      var mid := start + n / 2;
      NarrowDown(fs, ranges, value, start, start + n, mid);
      if value < ranges[mid].start {
        n := mid - start;
      } else if value >= ranges[mid].start + (ranges[mid + 1].orig - ranges[mid].orig) {
        var newStart := mid + 1;
        n := start + n - newStart;
        start := newStart;
      } else {
        Found(fs, ranges, value, mid);
        return value - ranges[mid].start + ranges[mid].orig;
      }
    }
    if n > 0 {
      var startOrig := ranges[start].orig;
      var size := ranges[start + 1].orig - startOrig;
      if ranges[start].start <= value < ranges[start].start + size {
        Found(fs, ranges, value, start);
        return value - ranges[start].start + startOrig;
      }
    }
    NotFound(fs, ranges, value, start, start + n);
    return -1;
  }

  /** A tag is unsigned and the search takes a signed number: a tag of 2^31 or more is negative there, and unknown either way. */
  lemma TagAsInt(S: Schema, d: nat, tag: u32)
    requires SchemaOk(S) && d < |S|
    ensures FieldIndex(S[d].fields, AsInt32(tag)) == FieldIndex(S[d].fields, tag)
  {
    var fs := S[d].fields;
    assert DescOk(S, S[d]);
    if tag >= TWO31 {
      forall i | 0 <= i < |fs| ensures fs[i].id != tag && fs[i].id != AsInt32(tag) { assert FieldOk(S, fs[i]); }
    }
  }

  // ---------------------------------------------------------------------------------------------
  // The bitmap of required fields
  // ---------------------------------------------------------------------------------------------

  /** `b & (1 << k)` */
  predicate Bit(b: nat, k: nat)
    decreases k
  {
    if k == 0 then b % 2 == 1 else Bit(b / 2, k - 1)
  }

  lemma {:induction false} OrSetsBit(b: nat, k: nat, j: nat)
    ensures Bit(Or(b, Pow2(k)), j) <==> j == k || Bit(b, j)
    decreases j
  {
    var r := Or(b, Pow2(k));
    OrStep(b, Pow2(k));
    Pow2Half(k);
    if k == 0 {
      OrOne(b);
    } else if j > 0 {
      OrSetsBit(b / 2, k - 1, j - 1);
    }
  }

  lemma {:induction false} OrBound(a: nat, b: nat, k: nat)
    requires a < Pow2(k) && b < Pow2(k)
    ensures Or(a, b) < Pow2(k)
    decreases k
  {
    if k > 0 {
      OrStep(a, b);
      Pow2Half(k);
      OrBound(a / 2, b / 2, k - 1);
    }
  }

  lemma ByteBit(b: byte, k: nat)
    requires k < 8
    ensures Or(b, Pow2(k)) < 256
  {
    Pow2Of8();
    Pow2Grows(k, 8);
    OrBound(b, Pow2(k), 8);
  }

  lemma Pow2Of8()
    ensures Pow2(8) == 256
  {
    Pow2Of7();
  }

  lemma {:induction false} Pow2Grows(k: nat, n: nat)
    requires k < n
    ensures Pow2(k) < Pow2(n)
    decreases n
  {
    if k < n - 1 { Pow2Grows(k, n - 1); }
  }

  predicate Marked(bitmap: seq<byte>, i: nat) { i / 8 < |bitmap| && Bit(bitmap[i / 8], i % 8) }

  /** `REQUIRED_FIELD_BITMAP_SET` adds one index to the marked ones and touches no other. */
  method BitmapSet(bitmap: array<byte>, i: nat)
    requires i / 8 < bitmap.Length
    modifies bitmap
    ensures forall j: nat :: Marked(bitmap[..], j) <==> j == i || Marked(old(bitmap[..]), j)
  {
    ghost var before := bitmap[..];
    ByteBit(bitmap[i / 8], i % 8);
    bitmap[i / 8] := Or(bitmap[i / 8], Pow2(i % 8));
    forall j: nat ensures Marked(bitmap[..], j) <==> j == i || Marked(before, j) {
      if j / 8 == i / 8 {
        OrSetsBit(before[i / 8], i % 8, j % 8);
        assert j == j / 8 * 8 + j % 8 && i == i / 8 * 8 + i % 8;
      }
    }
  }

  lemma {:induction false} ZeroBit(k: nat)
    ensures !Bit(0, k)
    decreases k
  {
    if k > 0 { ZeroBit(k - 1); }
  }

  /** `memset(bitmap, 0, len)` */
  method BitmapClear(bitmap: array<byte>)
    modifies bitmap
    ensures forall j: nat :: !Marked(bitmap[..], j)
  {
    forall k | 0 <= k < bitmap.Length { bitmap[k] := 0; }
    forall j: nat ensures !Marked(bitmap[..], j) { ZeroBit(j % 8); }
  }
}
