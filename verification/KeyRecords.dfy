/** Link-encryption key records and the LEKeyLoad batch that carries them. */
module KeyRecords {
  import opened Prelude
  import opened BigEndian
  import opened Batch

  type Key16 = k: bytes | |k| == 16 witness seq(16, _ => 0)

  datatype LeKeyRecord = LeKeyRecord(keyId: u32, key: Key16, expireTime: u32, attributeData: u64)

  function RecordBytes(key: LeKeyRecord): (b: bytes)
    ensures |b| == 32
  {
    ToBe(key.keyId, 4) + key.key + ToBe(key.expireTime, 4) + ToBe(key.attributeData, 8)
  }

  function RecordAt(b: bytes, offset: nat): (r: Result<LeKeyRecord>)
    ensures r.Ok? <==> offset + 32 <= |b|
  {
    if |b| < offset + 32 then Err("LE key batch item truncated")
    else
      Ok(LeKeyRecord(ReadU32(b, offset).value, b[offset + 4..offset + 20],
                     ReadU32(b, offset + 20).value, ReadU64(b, offset + 24).value))
  }

  lemma {:induction false} RecordReadBack(before: bytes, key: LeKeyRecord, after: bytes)
    ensures RecordAt(before + RecordBytes(key) + after, |before|) == Ok(key)
  {
    var b, o := before + RecordBytes(key) + after, |before|;
    var id, expire, attribute := ToBe(key.keyId, 4), ToBe(key.expireTime, 4), ToBe(key.attributeData, 8);
    assert b[o..o + 4] == id && b[o + 4..o + 20] == key.key;
    assert b[o + 20..o + 24] == expire && b[o + 24..o + 32] == attribute;
    Widths();
    FromTo(key.keyId, 4);
    FromTo(key.expireTime, 4);
    FromTo(key.attributeData, 8);
  }

  lemma {:induction false} RecordWriteBack(b: bytes, offset: nat)
    requires offset + 32 <= |b|
    ensures RecordBytes(RecordAt(b, offset).value) == b[offset..offset + 32]
  {
    hide ToBe, FromBe;
    WriteBack(b, offset);
    WriteBack(b, offset + 20);
    WriteBack(b, offset + 24);
    assert b[offset..offset + 32] == b[offset..offset + 4] + b[offset + 4..offset + 20]
                                     + b[offset + 20..offset + 20 + 4] + b[offset + 24..offset + 24 + 8];
  }

  function Records(keys: seq<LeKeyRecord>): bytes {
    if keys == [] then [] else RecordBytes(keys[0]) + Records(keys[1..])
  }

  function LoadRequest(keys: seq<LeKeyRecord>): bytes {
    Framed(TruncateU32(|keys|), 32, Records(keys))
  }

  function ParseLoadRequest(b: bytes): Result<seq<LeKeyRecord>> {
    if |b| < 8 then Err("LEKeyLoad payload too short")
    else
      var count, itemLength := ReadU32(b, 0).value, ReadU32(b, 4).value;
      if itemLength != 32 then Err("LEKeyLoad item length must be 32")
      else if |b| != 8 + count * 32 then Err("LEKeyLoad payload size mismatch")
      else Ok(seq(count, i requires 0 <= i < count => RecordAt(b, 8 + i * 32).value))
  }

  method EncodeLoadRequest(keys: seq<LeKeyRecord>) returns (out: bytes)
    ensures out == LoadRequest(keys)
  {
    out := ToBe(TruncateU32(|keys|), 4);
    out := out + ToBe(32, 4);
    for i := 0 to |keys|
      invariant out + Records(keys[i..]) == LoadRequest(keys)
    {
      assert out + Records(keys[i..]) == (out + RecordBytes(keys[i])) + Records(keys[i + 1..]);
      out := out + RecordBytes(keys[i]);
    }
  }

  method DecodeLoadRequest(b: bytes) returns (r: Result<seq<LeKeyRecord>>)
    ensures r == ParseLoadRequest(b)
  {
    if |b| < 8 {
      return Err("LEKeyLoad payload too short");
    }
    var count: nat, itemLength := ReadU32(b, 0).value, ReadU32(b, 4).value;
    if itemLength != 32 {
      return Err("LEKeyLoad item length must be 32");
    }
    if |b| != 8 + count * 32 {
      return Err("LEKeyLoad payload size mismatch");
    }
    var keys: seq<LeKeyRecord> := [];
    for i := 0 to count
      invariant |keys| == i
      invariant forall j :: 0 <= j < i ==> keys[j] == RecordAt(b, 8 + j * 32).value
    {
      keys := keys + [RecordAt(b, 8 + i * 32).value];
    }
    assert keys == ParseLoadRequest(b).value;
    r := Ok(keys);
  }

  lemma {:induction false} LoadRequestAccepted(b: bytes)
    ensures ParseLoadRequest(b).Ok? <==> BatchShape(b, 32)
  {
  }

  lemma {:induction false} RecordSlice(keys: seq<LeKeyRecord>, i: nat)
    requires i < |keys|
    ensures |Records(keys)| == 32 * |keys|
    ensures Records(keys)[32 * i..32 * i + 32] == RecordBytes(keys[i])
  {
    var rest := Records(keys[1..]);
    if i > 0 {
      RecordSlice(keys[1..], i - 1);
      assert Records(keys)[32 * i..32 * i + 32] == rest[32 * (i - 1)..32 * (i - 1) + 32];
    } else if |keys| > 1 {
      RecordSlice(keys[1..], 0);
    }
  }

  lemma {:induction false} RecordsReadBack(keys: seq<LeKeyRecord>, i: nat, b: bytes)
    requires i < |keys| && |b| == 8 + 32 * |keys| && b[8..] == Records(keys)
    ensures RecordAt(b, 8 + i * 32) == Ok(keys[i])
  {
    RecordSlice(keys, i);
    var before, after := b[..8 + i * 32], b[8 + i * 32 + 32..];
    assert b[8 + i * 32..8 + i * 32 + 32] == Records(keys)[32 * i..32 * i + 32];
    assert b == before + RecordBytes(keys[i]) + after;
    RecordReadBack(before, keys[i], after);
  }

  lemma {:induction false} ParsesTo(b: bytes, keys: seq<LeKeyRecord>)
    requires |b| == 8 + 32 * |keys| && ReadU32(b, 0) == Ok(|keys|) && ReadU32(b, 4) == Ok(32)
    requires forall i :: 0 <= i < |keys| ==> RecordAt(b, 8 + i * 32) == Ok(keys[i])
    ensures ParseLoadRequest(b) == Ok(keys)
  {
    assert ParseLoadRequest(b).value == keys;
  }

  /** Parsing a printed load request is the identity exactly when the count fits the header. */
  lemma {:induction false} LoadRequestRoundTrip(keys: seq<LeKeyRecord>)
    ensures ParseLoadRequest(LoadRequest(keys)) == Ok(keys) <==> |keys| < 0x1_0000_0000
  {
    hide ParseLoadRequest, ReadU32, RecordAt;
    var b := LoadRequest(keys);
    if keys != [] {
      RecordSlice(keys, 0);
    }
    assert |Records(keys)| == 32 * |keys|;
    HeaderReadBack(TruncateU32(|keys|), 32, Records(keys));
    if |keys| < 0x1_0000_0000 {
      forall i | 0 <= i < |keys|
        ensures RecordAt(b, 8 + i * 32) == Ok(keys[i])
      {
        RecordsReadBack(keys, i, b);
      }
      ParsesTo(b, keys);
    } else {
      CountTooLarge(b, keys);
    }
  }

  lemma {:induction false} CountTooLarge(b: bytes, keys: seq<LeKeyRecord>)
    requires |keys| >= 0x1_0000_0000
    ensures ParseLoadRequest(b) != Ok(keys)
  {
  }

  lemma {:induction false} RecordsOf(body: bytes, keys: seq<LeKeyRecord>)
    requires |body| == 32 * |keys|
    requires forall i :: 0 <= i < |keys| ==> RecordBytes(keys[i]) == body[32 * i..32 * i + 32]
    ensures Records(keys) == body
  {
    if keys != [] {
      forall i | 0 <= i < |keys| - 1
        ensures RecordBytes(keys[1..][i]) == body[32..][32 * i..32 * i + 32]
      {
        assert body[32..][32 * i..32 * i + 32] == body[32 * (i + 1)..32 * (i + 1) + 32];
      }
      RecordsOf(body[32..], keys[1..]);
      assert body == body[32 * 0..32 * 0 + 32] + body[32..];
    }
  }

  lemma {:induction false} RecordItem(b: bytes, i: nat)
    requires 8 + i * 32 + 32 <= |b|
    ensures RecordBytes(RecordAt(b, 8 + i * 32).value) == b[8..][32 * i..32 * i + 32]
  {
    RecordWriteBack(b, 8 + i * 32);
    assert b[8..][32 * i..32 * i + 32] == b[8 + i * 32..8 + i * 32 + 32];
  }

  lemma {:induction false} RecordsParsed(b: bytes, keys: seq<LeKeyRecord>)
    requires |b| == 8 + 32 * |keys|
    requires forall i :: 0 <= i < |keys| ==> keys[i] == RecordAt(b, 8 + i * 32).value
    ensures Records(keys) == b[8..]
  {
    forall i | 0 <= i < |keys|
      ensures RecordBytes(keys[i]) == b[8..][32 * i..32 * i + 32]
    {
      RecordItem(b, i);
    }
    RecordsOf(b[8..], keys);
  }

  lemma {:induction false} ParsedHeader(b: bytes)
    requires ParseLoadRequest(b).Ok?
    ensures |ParseLoadRequest(b).value| < 0x1_0000_0000
    ensures ReadU32(b, 0) == Ok(|ParseLoadRequest(b).value|) && ReadU32(b, 4) == Ok(32)
    ensures Records(ParseLoadRequest(b).value) == b[8..]
  {
    hide RecordAt, Records;
    RecordsParsed(b, ParseLoadRequest(b).value);
  }

  /** Every accepted load request is the printed form of the records it was parsed to. */
  lemma {:induction false} LoadRequestReencodes(b: bytes)
    requires ParseLoadRequest(b).Ok?
    ensures LoadRequest(ParseLoadRequest(b).value) == b
  {
    hide ParseLoadRequest, ReadU32, Records, Framed;
    ParsedHeader(b);
    HeaderWriteBack(b, |ParseLoadRequest(b).value|, 32);
  }
}
