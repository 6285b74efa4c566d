/** Batches of 32-bit ids: an 8-byte header (count, item length 4) and the items.
    The key-id and event-id responses share this form. */
module U32Batch {
  import opened Prelude
  import opened BigEndian
  import opened Batch

  function Items(values: seq<u32>): bytes {
    if values == [] then [] else ToBe(values[0], 4) + Items(values[1..])
  }

  function Encoded(values: seq<u32>): bytes {
    Framed(TruncateU32(|values|), 4, Items(values))
  }

  function Decoded(b: bytes): Result<seq<u32>> {
    if |b| < 8 then Err("LEKeyID batch too short")
    else
      var count, itemLength := ReadU32(b, 0).value, ReadU32(b, 4).value;
      if itemLength != 4 then Err("LEKeyID batch item length must be 4")
      else if |b| != 8 + count * 4 then Err("LEKeyID batch size mismatch")
      else Ok(seq(count, i requires 0 <= i < count => ReadU32(b, 8 + i * 4).value))
  }

  method Encode(values: seq<u32>) returns (out: bytes)
    ensures out == Encoded(values)
  {
    out := ToBe(TruncateU32(|values|), 4);
    out := out + ToBe(4, 4);
    for i := 0 to |values|
      invariant out + Items(values[i..]) == Encoded(values)
    {
      assert out + Items(values[i..]) == (out + ToBe(values[i], 4)) + Items(values[i + 1..]);
      out := out + ToBe(values[i], 4);
    }
  }

  method Decode(b: bytes) returns (r: Result<seq<u32>>)
    ensures r == Decoded(b)
  {
    if |b| < 8 {
      return Err("LEKeyID batch too short");
    }
    var count: nat, itemLength := ReadU32(b, 0).value, ReadU32(b, 4).value;
    if itemLength != 4 {
      return Err("LEKeyID batch item length must be 4");
    }
    if |b| != 8 + count * 4 {
      return Err("LEKeyID batch size mismatch");
    }
    var values: seq<u32> := [];
    for i := 0 to count
      invariant |values| == i
      invariant forall j :: 0 <= j < i ==> values[j] == ReadU32(b, 8 + j * 4).value
    {
      values := values + [ReadU32(b, 8 + i * 4).value];
    }
    assert values == Decoded(b).value;
    r := Ok(values);
  }

  lemma {:induction false} ItemAt(values: seq<u32>, i: nat)
    requires i < |values|
    ensures |Items(values)| == 4 * |values|
    ensures Items(values)[4 * i..4 * i + 4] == ToBe(values[i], 4)
  {
    var rest := Items(values[1..]);
    if i > 0 {
      ItemAt(values[1..], i - 1);
      assert Items(values)[4 * i..4 * i + 4] == rest[4 * (i - 1)..4 * (i - 1) + 4];
    } else if |values| > 1 {
      ItemAt(values[1..], 0);
    }
  }

  lemma {:induction false} ItemsSize(values: seq<u32>)
    ensures |Items(values)| == 4 * |values|
  {
    if values != [] {
      ItemAt(values, 0);
    }
  }

  lemma {:induction false} ItemsReadBack(values: seq<u32>, i: nat, b: bytes)
    requires i < |values| && |b| == 8 + 4 * |values| && b[8..] == Items(values)
    ensures ReadU32(b, 8 + i * 4) == Ok(values[i])
  {
    ItemAt(values, i);
    assert b[8 + i * 4..8 + i * 4 + 4] == Items(values)[4 * i..4 * i + 4];
    Widths();
    FromTo(values[i], 4);
  }

  /** Encoding then decoding is the identity exactly on lists whose count fits the header. */
  lemma {:induction false} DecodeEncoded(values: seq<u32>)
    ensures Decoded(Encoded(values)) == Ok(values) <==> |values| < 0x1_0000_0000
    ensures |Encoded(values)| == 8 + 4 * |values|
  {
    var b := Encoded(values);
    ItemsSize(values);
    HeaderReadBack(TruncateU32(|values|), 4, Items(values));
    if |values| < 0x1_0000_0000 {
      forall i | 0 <= i < |values|
        ensures ReadU32(b, 8 + i * 4) == Ok(values[i])
      {
        ItemsReadBack(values, i, b);
      }
      assert Decoded(b).value == values;
    }
  }

  lemma {:induction false} ItemsOf(body: bytes, values: seq<u32>)
    requires |body| == 4 * |values|
    requires forall i :: 0 <= i < |values| ==> ToBe(values[i], 4) == body[4 * i..4 * i + 4]
    ensures Items(values) == body
  {
    if values != [] {
      forall i | 0 <= i < |values| - 1
        ensures ToBe(values[1..][i], 4) == body[4..][4 * i..4 * i + 4]
      {
        assert body[4..][4 * i..4 * i + 4] == body[4 * (i + 1)..4 * (i + 1) + 4];
      }
      ItemsOf(body[4..], values[1..]);
      assert body == body[4 * 0..4 * 0 + 4] + body[4..];
    }
  }

  lemma {:induction false} DecodedItems(b: bytes, values: seq<u32>)
    requires |b| == 8 + 4 * |values|
    requires forall i :: 0 <= i < |values| ==> values[i] == ReadU32(b, 8 + i * 4).value
    ensures Items(values) == b[8..]
  {
    forall i | 0 <= i < |values|
      ensures ToBe(values[i], 4) == b[8..][4 * i..4 * i + 4]
    {
      WriteBack(b, 8 + i * 4);
      assert b[8..][4 * i..4 * i + 4] == b[8 + i * 4..8 + i * 4 + 4];
    }
    ItemsOf(b[8..], values);
  }

  lemma {:induction false} DecodedHeader(b: bytes)
    requires Decoded(b).Ok?
    ensures |Decoded(b).value| < 0x1_0000_0000
    ensures ReadU32(b, 0) == Ok(|Decoded(b).value|) && ReadU32(b, 4) == Ok(4)
    ensures Items(Decoded(b).value) == b[8..]
  {
    hide FromBe, Items;
    DecodedItems(b, Decoded(b).value);
  }

  lemma {:induction false} DecodedSize(b: bytes)
    ensures Decoded(b).Ok? ==> |b| == 8 + 4 * |Decoded(b).value|
  {
  }

  lemma {:induction false} Accepted(b: bytes)
    ensures Decoded(b).Ok? <==> BatchShape(b, 4)
  {
  }

  /** Accepted are exactly the byte strings of 8 + 4 n bytes with header (n, 4), and each is
      the encoding of the list it is decoded to. */
  lemma {:induction false} EncodeDecoded(b: bytes)
    ensures Decoded(b).Ok? <==> BatchShape(b, 4)
    ensures Decoded(b).Ok? ==> Encoded(Decoded(b).value) == b
  {
    hide Decoded, ReadU32, Items, Framed, BatchShape;
    Accepted(b);
    if Decoded(b).Ok? {
      DecodedHeader(b);
      HeaderWriteBack(b, |Decoded(b).value|, 4);
    }
  }
}
