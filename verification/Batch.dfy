/** The frame every batch shares: an 8-byte header (item count, item length) and the items. */
module Batch {
  import opened Prelude
  import opened BigEndian

  function Framed(count: u32, size: u32, items: bytes): bytes {
    ToBe(count, 4) + ToBe(size, 4) + items
  }

  /** The header announces items of this size, and exactly that many bytes follow. */
  predicate BatchShape(b: bytes, size: nat) {
    |b| >= 8 && FromBe(b[4..8]) == size && |b| == 8 + FromBe(b[0..4]) * size
  }

  lemma {:induction false} HeaderReadBack(count: u32, size: u32, items: bytes)
    ensures var b := Framed(count, size, items);
            ReadU32(b, 0) == Ok(count) && ReadU32(b, 4) == Ok(size) && b[8..] == items
  {
    var b := Framed(count, size, items);
    ReadBackU32([], count, ToBe(size, 4) + items);
    assert b == [] + ToBe(count, 4) + (ToBe(size, 4) + items);
    ReadBackU32(ToBe(count, 4), size, items);
  }

  lemma {:induction false} HeaderWriteBack(b: bytes, count: u32, size: u32)
    requires ReadU32(b, 0) == Ok(count) && ReadU32(b, 4) == Ok(size)
    ensures b == Framed(count, size, b[8..])
  {
    WriteBack(b, 0);
    WriteBack(b, 4);
    assert b == b[0..0 + 4] + b[4..4 + 4] + b[8..];
  }
}
