/** Big-endian integers: positional value, fixed-width digits, and the shift-and-mask
    readers and writers of the wire format. */
module BigEndian {
  import opened Prelude

  function Pow256(n: nat): (p: nat)
    ensures p > 0
  {
    if n == 0 then 1 else 256 * Pow256(n - 1)
  }

  /** The value of a byte string read as base-256 digits, most significant first. */
  function FromBe(b: bytes): nat {
    if b == [] then 0 else FromBe(b[..|b| - 1]) * 256 + b[|b| - 1]
  }

  /** The `width` low-order base-256 digits of `v`, most significant first. */
  function ToBe(v: nat, width: nat): (b: bytes)
    ensures |b| == width
  {
    if width == 0 then [] else ToBe(v / 256, width - 1) + [v % 256]
  }

  lemma {:induction false} Widths()
    ensures Pow256(3) == 0x100_0000
    ensures Pow256(4) == 0x1_0000_0000
    ensures Pow256(7) == 0x100_0000_0000_0000
    ensures Pow256(8) == 0x1_0000_0000_0000_0000
  {
    assert Pow256(1) == 256 && Pow256(2) == 0x1_0000;
    assert Pow256(5) == 256 * Pow256(4) && Pow256(6) == 256 * Pow256(5);
    assert Pow256(7) == 256 * Pow256(6) && Pow256(8) == 256 * Pow256(7);
  }

  lemma {:induction false} FromBeBound(b: bytes)
    ensures FromBe(b) < Pow256(|b|)
  {
    if b != [] {
      FromBeBound(b[..|b| - 1]);
    }
  }

  lemma {:induction false} FromTo(v: nat, width: nat)
    requires v < Pow256(width)
    ensures FromBe(ToBe(v, width)) == v
  {
    if width > 0 {
      FromTo(v / 256, width - 1);
      assert ToBe(v, width)[..width - 1] == ToBe(v / 256, width - 1);
    }
  }

  lemma {:induction false} DigitDown(v: nat, width: nat)
    ensures ToBe(v, width + 1) == ToBe(v / 256, width) + [v % 256]
  {
  }

  lemma {:induction false} DigitApart(high: nat, low: byte)
    ensures (high * 256 + low) / 256 == high && (high * 256 + low) % 256 == low
  {
  }

  lemma {:induction false} ToFrom(b: bytes)
    ensures ToBe(FromBe(b), |b|) == b
  {
    if b != [] {
      var start, last := b[..|b| - 1], b[|b| - 1];
      ToFrom(start);
      DigitDown(FromBe(b), |start|);
      DigitApart(FromBe(start), last);
      assert b == start + [last];
    }
  }

  // ---- Readers at an offset ----

  function ReadU32(b: bytes, offset: nat): (r: Result<u32>)
    ensures r.Ok? <==> offset + 4 <= |b|
  {
    if |b| < offset + 4 then Result<u32>.Err("unexpected end of buffer while reading u32")
    else
      FromBeBound(b[offset..offset + 4]);
      Widths();
      Ok(FromBe(b[offset..offset + 4]))
  }

  function ReadU64(b: bytes, offset: nat): (r: Result<u64>)
    ensures r.Ok? <==> offset + 8 <= |b|
  {
    if |b| < offset + 8 then Result<u64>.Err("unexpected end of buffer while reading u64")
    else
      FromBeBound(b[offset..offset + 8]);
      Widths();
      Ok(FromBe(b[offset..offset + 8]))
  }

  /** A reader returns what the writer put there, whatever stands before and after. */
  lemma {:induction false} ReadBackU32(before: bytes, v: u32, after: bytes)
    ensures ReadU32(before + ToBe(v, 4) + after, |before|) == Ok(v)
  {
    var b := before + ToBe(v, 4) + after;
    assert b[|before|..|before| + 4] == ToBe(v, 4);
    Widths();
    FromTo(v, 4);
  }

  lemma {:induction false} ReadBackU64(before: bytes, v: u64, after: bytes)
    ensures ReadU64(before + ToBe(v, 8) + after, |before|) == Ok(v)
  {
    var b := before + ToBe(v, 8) + after;
    assert b[|before|..|before| + 8] == ToBe(v, 8);
    Widths();
    FromTo(v, 8);
  }

  lemma {:induction false} OwnBytesU32(v: u32)
    ensures ReadU32(ToBe(v, 4), 0) == Ok(v) && FromBe(ToBe(v, 4)[0..4]) == v
  {
    Widths();
    FromTo(v, 4);
    assert ToBe(v, 4)[0..4] == ToBe(v, 4);
  }

  /** What a reader returned, written again, is the slice it was read from. */
  lemma {:induction false} WriteBack(b: bytes, offset: nat)
    ensures ReadU32(b, offset).Ok? ==> ToBe(ReadU32(b, offset).value, 4) == b[offset..offset + 4]
    ensures ReadU64(b, offset).Ok? ==> ToBe(ReadU64(b, offset).value, 8) == b[offset..offset + 8]
  {
    if offset + 4 <= |b| {
      ToFrom(b[offset..offset + 4]);
    }
    if offset + 8 <= |b| {
      ToFrom(b[offset..offset + 8]);
    }
  }

  // ---- The shift-and-mask code on machine words ----

  /** A buffer of machine bytes, seen as numbers. */
  function Ints(b: seq<bv8>): (r: bytes)
    ensures |r| == |b| && forall i :: 0 <= i < |b| ==> r[i] == b[i] as int
  {
    seq(|b|, i requires 0 <= i < |b| => b[i] as int)
  }

  lemma {:induction false} Join32(a: bv8, b: bv8, c: bv8, d: bv8)
    ensures ((a as bv32 << 24) | (b as bv32 << 16) | (c as bv32 << 8) | d as bv32) as int
         == a as int * 0x100_0000 + b as int * 0x1_0000 + c as int * 0x100 + d as int
  {
  }

  lemma {:induction false} LastDigit(b: bytes, digit: byte)
    ensures FromBe(b + [digit]) == FromBe(b) * 256 + digit
  {
    assert (b + [digit])[..|b|] == b;
  }

  lemma {:induction false} Four(a: byte, b: byte, c: byte, d: byte)
    ensures FromBe([a, b, c, d]) == a * 0x100_0000 + b * 0x1_0000 + c * 0x100 + d
  {
    LastDigit([], a);
    LastDigit([a], b);
    LastDigit([a, b], c);
    LastDigit([a, b, c], d);
    assert [] + [a] == [a] && [a] + [b] == [a, b];
    assert [a, b] + [c] == [a, b, c] && [a, b, c] + [d] == [a, b, c, d];
  }

  lemma {:induction false} FourAt(b: seq<bv8>, offset: nat)
    requires offset + 4 <= |b|
    ensures ReadU32(Ints(b), offset) == Ok(b[offset] as int * 0x100_0000 + b[offset + 1] as int * 0x1_0000
                                           + b[offset + 2] as int * 0x100 + b[offset + 3] as int)
  {
    Four(b[offset] as int, b[offset + 1] as int, b[offset + 2] as int, b[offset + 3] as int);
    assert Ints(b)[offset..offset + 4]
        == [b[offset] as int, b[offset + 1] as int, b[offset + 2] as int, b[offset + 3] as int];
  }

  method DecodeBeU32(b: seq<bv8>, offset: nat) returns (r: Result<bv32>)
    ensures r.Err? <==> |b| < offset + 4
    ensures r.Ok? ==> ReadU32(Ints(b), offset) == Ok(r.value as int)
  {
    if |b| < offset + 4 {
      return Err("unexpected end of buffer while reading u32");
    }
    FourAt(b, offset);
    Join32(b[offset], b[offset + 1], b[offset + 2], b[offset + 3]);
    r := Ok((b[offset] as bv32 << 24) | (b[offset + 1] as bv32 << 16)
            | (b[offset + 2] as bv32 << 8) | b[offset + 3] as bv32);
  }

  lemma {:induction false} PushByte64(v: bv64, b: bv8)
    requires v < 0x100_0000_0000_0000
    ensures ((v << 8) | b as bv64) as int == v as int * 256 + b as int
  {
  }

  lemma {:induction false} PushByteToSmall64(v: bv64, b: bv8)
    requires v as int < 0x100_0000_0000_0000
    ensures ((v << 8) | b as bv64) as int == v as int * 256 + b as int
  {
  }

  lemma {:induction false} Pow256Grows(i: nat, j: nat)
    requires i <= j
    ensures Pow256(i) <= Pow256(j)
    decreases j
  {
    if i < j {
      Pow256Grows(i, j - 1);
    }
  }

  lemma {:induction false} SevenBytes(read: bytes)
    requires |read| <= 7
    ensures FromBe(read) < 0x100_0000_0000_0000
  {
    FromBeBound(read);
    Pow256Grows(|read|, 7);
    Widths();
  }

  lemma {:induction false} LongerSlice(b: bytes, from: nat, to: nat)
    requires from <= to < |b|
    ensures FromBe(b[from..to + 1]) == FromBe(b[from..to]) * 256 + b[to]
  {
    LastDigit(b[from..to], b[to]);
    assert b[from..to + 1] == b[from..to] + [b[to]];
  }

  /** One more byte shifted into the accumulator appends its digit to the value read so far. */
  lemma {:induction false} NextDigit(b: bytes, offset: nat, i: nat, value: bv64, next: bv8)
    requires offset + i < |b| && i < 8 && next as int == b[offset + i]
    requires value as int == FromBe(b[offset..offset + i])
    ensures ((value << 8) | next as bv64) as int == FromBe(b[offset..offset + i + 1])
  {
    SevenBytes(b[offset..offset + i]);
    LongerSlice(b, offset, offset + i);
    PushByteToSmall64(value, next);
  }

  method DecodeBeU64(b: seq<bv8>, offset: nat) returns (r: Result<bv64>)
    ensures r.Err? <==> |b| < offset + 8
    ensures r.Ok? ==> ReadU64(Ints(b), offset) == Ok(r.value as int)
  {
    if |b| < offset + 8 {
      return Err("unexpected end of buffer while reading u64");
    }
    hide Ints;
    var value: bv64 := 0;
    for i := 0 to 8
      invariant value as int == FromBe(Ints(b)[offset..offset + i])
    {
      NextDigit(Ints(b), offset, i, value, b[offset + i]);
      value := (value << 8) | b[offset + i] as bv64;
    }
    r := Ok(value);
  }

  lemma {:induction false} Rejoin32(v: bv32)
    ensures v == (((v >> 24) & 0xff) as bv8 as bv32 << 24) | (((v >> 16) & 0xff) as bv8 as bv32 << 16)
               | (((v >> 8) & 0xff) as bv8 as bv32 << 8) | (v & 0xff) as bv8 as bv32
  {
  }

  lemma {:induction false} Split32(v: bv32, a: bv8, b: bv8, c: bv8, d: bv8)
    requires v == (a as bv32 << 24) | (b as bv32 << 16) | (c as bv32 << 8) | d as bv32
    ensures ToBe(v as int, 4) == [a as int, b as int, c as int, d as int]
  {
    Join32(a, b, c, d);
    SplitInt(v as int, a as int, b as int, c as int, d as int);
  }

  lemma {:induction false} SplitInt(v: nat, a: byte, b: byte, c: byte, d: byte)
    requires v == a * 0x100_0000 + b * 0x1_0000 + c * 0x100 + d
    ensures ToBe(v, 4) == [a, b, c, d]
  {
    Four(a, b, c, d);
    ToFrom([a, b, c, d]);
  }

  method AppendBeU32(out: seq<bv8>, value: bv32) returns (r: seq<bv8>)
    ensures out <= r
    ensures Ints(r) == Ints(out) + ToBe(value as int, 4)
  {
    r := out;
    r := r + [((value >> 24) & 0xff) as bv8];
    r := r + [((value >> 16) & 0xff) as bv8];
    r := r + [((value >> 8) & 0xff) as bv8];
    r := r + [(value & 0xff) as bv8];
    Rejoin32(value);
    Split32(value, ((value >> 24) & 0xff) as bv8, ((value >> 16) & 0xff) as bv8,
            ((value >> 8) & 0xff) as bv8, (value & 0xff) as bv8);
  }

  lemma {:induction false} Rejoin64(v: bv64)
    ensures v == ((v >> 8) << 8) | (v & 0xff) as bv8 as bv64
    ensures v >> 8 < 0x100_0000_0000_0000
  {
  }

  lemma {:induction false} PopParts64(v: bv64, high: bv64, low: bv8)
    requires v == (high << 8) | low as bv64 && high < 0x100_0000_0000_0000
    ensures high as int == v as int / 256 && low as int == v as int % 256
  {
    PushByte64(high, low);
  }

  /** Dropping the low byte divides by 256; masking it takes the remainder. */
  lemma {:induction false} PopByte64(v: bv64)
    ensures (v >> 8) as int == v as int / 256
    ensures (v & 0xff) as bv8 as int == v as int % 256
  {
    Rejoin64(v);
    PopParts64(v, v >> 8, (v & 0xff) as bv8);
  }

  /** The bits at and above position `shift`, as a number. */
  function Above(v: bv64, shift: nat): nat
    requires shift <= 64
  {
    (v >> shift) as int
  }

  lemma {:induction false} AboveZero(v: bv64)
    ensures Above(v, 0) == v as int
  {
  }

  lemma {:induction false} LowShiftsAdd(v: bv64, shift: int)
    requires 0 <= shift <= 24 && shift % 8 == 0
    ensures (v >> shift) >> 8 == v >> (shift + 8)
  {
    if shift == 0 {
    } else if shift == 8 {
    } else if shift == 16 {
    } else {
      assert shift == 24;
    }
  }

  lemma {:induction false} HighShiftsAdd(v: bv64, shift: int)
    requires 32 <= shift <= 56 && shift % 8 == 0
    ensures (v >> shift) >> 8 == v >> (shift + 8)
  {
    if shift == 32 {
    } else if shift == 40 {
    } else if shift == 48 {
    } else {
      assert shift == 56;
    }
  }

  lemma {:induction false} ShiftsAdd(v: bv64, shift: int)
    requires 0 <= shift <= 56 && shift % 8 == 0
    ensures (v >> shift) >> 8 == v >> (shift + 8)
  {
    if shift <= 24 {
      LowShiftsAdd(v, shift);
    } else {
      HighShiftsAdd(v, shift);
    }
  }

  /** The byte pushed at one value of `shift` is the next digit down. */
  method PushByteAt(out: seq<bv8>, value: bv64, shift: nat) returns (r: seq<bv8>)
    requires shift <= 56 && shift % 8 == 0
    ensures out <= r
    ensures Above(value, shift + 8) == Above(value, shift) / 256
    ensures Ints(r) == Ints(out) + [Above(value, shift) % 256]
  {
    r := out + [((value >> shift) & 0xff) as bv8];
    PopByte64(value >> shift);
    ShiftsAdd(value, shift);
  }

  method AppendBeU64(out: seq<bv8>, value: bv64) returns (r: seq<bv8>)
    ensures out <= r
    ensures Ints(r) == Ints(out) + ToBe(value as int, 8)
  {
    hide Above, Ints, ToBe;
    r := out;
    var shift := 56;
    ghost var width := 0;
    assert Ints(r) == Ints(out) + ToBe(Above(value, 64), 0);
    while shift >= 0
      invariant width <= 8 && shift == 56 - 8 * width
      invariant out <= r && Ints(r) == Ints(out) + ToBe(Above(value, shift + 8), width)
    {
      DigitDown(Above(value, shift), width);
      r := PushByteAt(r, value, shift);
      width := width + 1;
      shift := shift - 8;
    }
    AboveZero(value);
  }
}
