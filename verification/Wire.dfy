/** The frames and payloads byte by byte, as sections 6 to 8 and Annex A lay them out, and the
    proof that they are what the codecs produce. */
module Wire {
  import opened Prelude
  import opened BigEndian
  import opened Codec
  import opened Batch
  import opened KeyRecords
  import opened KeyStores
  import opened EventLog
  import opened Service
  import opened Server
  import Klv
  import U32Batch

  // ---- Numbers ----

  function Octets3(n: nat): bytes
    requires n <= 0xff_ffff
  {
    [n / 0x1_0000, n / 0x100 % 0x100, n % 0x100]
  }

  function Octets4(n: u32): bytes {
    [n / 0x100_0000, n / 0x1_0000 % 0x100, n / 0x100 % 0x100, n % 0x100]
  }

  function Octets8(n: u64): bytes {
    Octets4(n / 0x1_0000_0000) + Octets4(n % 0x1_0000_0000)
  }

  lemma {:induction false} FourDown(v: nat, width: nat)
    ensures ToBe(v, width + 4)
         == ToBe(v / 0x1_0000_0000, width)
            + [v / 0x100_0000 % 0x100, v / 0x1_0000 % 0x100, v / 0x100 % 0x100, v % 0x100]
  {
    hide ToBe;
    DigitDown(v, width + 3);
    DigitDown(v / 0x100, width + 2);
    DigitDown(v / 0x1_0000, width + 1);
    DigitDown(v / 0x100_0000, width);
    assert v / 0x100 / 0x100 == v / 0x1_0000 && v / 0x1_0000 / 0x100 == v / 0x100_0000;
    assert v / 0x100_0000 / 0x100 == v / 0x1_0000_0000;
  }

  lemma {:induction false} InOctets3(n: nat)
    requires n <= 0xff_ffff
    ensures ToBe(n, 3) == Octets3(n)
  {
    DigitDown(n, 2);
    DigitDown(n / 0x100, 1);
    DigitDown(n / 0x1_0000, 0);
    assert n / 0x100 / 0x100 == n / 0x1_0000;
    hide ToBe;
  }

  lemma {:induction false} InOctets4(n: u32)
    ensures ToBe(n, 4) == Octets4(n)
  {
    assert ToBe(n / 0x1_0000_0000, 0) == [];
    hide ToBe;
    FourDown(n, 0);
    TopDigit(n);
  }

  lemma {:induction false} TopDigit(n: u32)
    ensures n / 0x100_0000 % 0x100 == n / 0x100_0000
  {
  }

  lemma {:induction false} DigitAbove(high: nat, low: nat)
    ensures (high * 0x100 + low) % 0x100 == low % 0x100
  {
  }

  lemma {:induction false} SplitHalves(high: nat, low: u32)
    ensures var n := high * 0x1_0000_0000 + low;
            && n / 0x100_0000 == high * 0x100 + low / 0x100_0000
            && n / 0x1_0000 == high * 0x1_0000 + low / 0x1_0000
            && n / 0x100 == high * 0x100_0000 + low / 0x100
  {
  }

  lemma {:induction false} LowHalf(high: nat, low: u32)
    ensures var n := high * 0x1_0000_0000 + low;
            && n / 0x100_0000 % 0x100 == low / 0x100_0000 && n / 0x1_0000 % 0x100 == low / 0x1_0000 % 0x100
            && n / 0x100 % 0x100 == low / 0x100 % 0x100 && n % 0x100 == low % 0x100
  {
    SplitHalves(high, low);
    DigitAbove(high, low / 0x100_0000);
    DigitAbove(high * 0x100, low / 0x1_0000);
    DigitAbove(high * 0x1_0000, low / 0x100);
    DigitAbove(high * 0x100_0000, low);
  }

  /** The eight digits of a 64-bit number are those of its two halves. */
  lemma {:induction false} InOctets8(n: u64)
    ensures ToBe(n, 8) == Octets8(n)
  {
    FourDown(n, 4);
    InOctets4(n / 0x1_0000_0000);
    LowHalf(n / 0x1_0000_0000, n % 0x1_0000_0000);
  }

  // ---- Frames ----

  /** The labels of Annex A: the eleven bytes they share, group and number, three zeros. A
      response has the number after its request's. */
  function Label(c: Command, response: bool): bytes {
    var (group: byte, number: byte) :=
      match c
      case BadRequest => (0x01, 0x00)
      case GetTime => (0x02, 0x10)
      case GetEventList => (0x02, 0x12)
      case GetEventId => (0x02, 0x14)
      case QuerySpb => (0x02, 0x16)
      case LeKeyLoad => (0x03, 0x20)
      case LeKeyQueryId => (0x03, 0x22)
      case LeKeyQueryAll => (0x03, 0x24)
      case LeKeyPurgeId => (0x03, 0x26)
      case LeKeyPurgeAll => (0x03, 0x28);
    [0x06, 0x0e, 0x2b, 0x34, 0x02, 0x05, 0x01, 0x01, 0x02, 0x07, 0x01,
     group, if response then number + 1 else number, 0x00, 0x00, 0x00]
  }

  lemma {:induction false} LabelOnWire(c: Command, response: bool)
    requires response || c != BadRequest
    ensures UlFor(c, response) == Ok(Label(c, response))
  {
    var d := CommandDescriptor(c, response);
    DescriptorFound(IndexOf(d));
    LabelAt(d);
  }

  lemma {:induction false} LabelAt(d: CommandDescriptor)
    requires d.response || d.command != BadRequest
    ensures UL_MAP[IndexOf(d)].ul == Label(d.command, d.response)
  {
  }

  /** What comes before a value of this length: label, 0x83, three bytes of length. */
  function Head(ul: bytes, length: nat): bytes
    requires length <= 0xff_ffff
  {
    ul + [0x83] + Octets3(length)
  }

  function FrameBytes(ul: bytes, value: bytes): bytes
    requires |value| <= 0xff_ffff
  {
    Head(ul, |value|) + value
  }

  lemma {:induction false} FrameOnWire(ul: Klv.Ul, value: bytes)
    requires |value| <= 0xff_ffff
    ensures Klv.Encoded(Klv.KlvPacket(ul, |value|, value)) == Ok(FrameBytes(ul, value))
  {
    InOctets3(|value|);
    assert ul + ([0x83] + ToBe(|value|, 3)) + value == ul + [0x83] + ToBe(|value|, 3) + value;
  }

  /** A request on the wire: its label, the length, the request id and the payload. */
  lemma {:induction false} RequestOnWire(request: StandardRequest)
    requires request.command != BadRequest && |request.payload| + 4 <= 0xff_ffff
    ensures RequestFrame(request)
         == Ok(FrameBytes(Label(request.command, false), Octets4(request.requestId) + request.payload))
  {
    hide ToBe, Octets4, Label, UlFor, FrameBytes, Klv.Encoded;
    LabelOnWire(request.command, false);
    InOctets4(request.requestId);
    FrameOnWire(Label(request.command, false), RequestValue(request));
  }

  /** The code that ends every response. */
  function CodeByte(code: GeneralResponse): byte {
    match code
    case Successful => 0x00
    case Failed => 0x01
    case Invalid => 0x02
    case Busy => 0x03
  }

  /** A response on the wire: its label, the length, the request id unless it is a BadRequest,
      the payload and the code. */
  lemma {:induction false} ResponseOnWire(response: StandardResponse)
    requires response.command != BadRequest ==> response.requestId.Some?
    requires (if response.command == BadRequest then 1 else 5) + |response.payload| <= 0xff_ffff
    ensures ResponseFrame(response)
         == Ok(FrameBytes(Label(response.command, true),
                          (if response.command == BadRequest then [] else Octets4(response.requestId.value))
                          + response.payload + [CodeByte(response.code)]))
  {
    hide ToBe, Octets4, Label, UlFor, FrameBytes, Klv.Encoded;
    LabelOnWire(response.command, true);
    if response.command != BadRequest {
      InOctets4(response.requestId.value);
    }
    FrameOnWire(Label(response.command, true), ResponseValue(response));
  }

  /** Every frame the server sends, in terms of the response a client reads from it. */
  lemma {:induction false} ReplyOnWire(env: Env, s: Store, raw: bytes, now: u64, canOpen: bool)
    requires |raw| < 0xff_ffff
    ensures var reply := ReplyTo(env, s, raw, now, canOpen);
            && (reply.command != BadRequest ==> reply.requestId.Some?)
            && (if reply.command == BadRequest then 1 else 5) + |reply.payload| <= 0xff_ffff
            && Serve(env, s, raw, now, canOpen).sent
               == Ok(FrameBytes(Label(reply.command, true),
                                (if reply.command == BadRequest then [] else Octets4(reply.requestId.value))
                                + reply.payload + [CodeByte(reply.code)]))
  {
    hide Serve, FrameResponse, ResponseFrame, Label, Octets4, FrameBytes;
    Exchange(env, s, raw, now, canOpen);
    var reply := ReplyTo(env, s, raw, now, canOpen);
    ResponseReencodes(Serve(env, s, raw, now, canOpen).sent.value);
    ResponseRoundTrip(reply);
    ResponseOnWire(reply);
  }

  // ---- Payloads ----

  /** An id list: the count modulo 2^32, the item length 4, the ids. */
  lemma {:induction false} IdsOnWire(ids: seq<u32>)
    ensures var b := U32Batch.Encoded(ids);
            && |b| == 8 + 4 * |ids|
            && b[..8] == Octets4(|ids| % 0x1_0000_0000) + [0, 0, 0, 4]
            && forall i :: 0 <= i < |ids| ==> b[8 + 4 * i..12 + 4 * i] == Octets4(ids[i])
  {
    var b := U32Batch.Encoded(ids);
    HeaderOnWire(|ids| % 0x1_0000_0000, 4, U32Batch.Items(ids));
    U32Batch.ItemsSize(ids);
    hide U32Batch.Encoded, Octets4, ToBe;
    forall i | 0 <= i < |ids|
      ensures b[8 + 4 * i..12 + 4 * i] == Octets4(ids[i])
    {
      U32Batch.ItemAt(ids, i);
      InOctets4(ids[i]);
      assert b[8 + 4 * i..12 + 4 * i] == U32Batch.Items(ids)[4 * i..4 * i + 4];
    }
  }

  lemma {:induction false} HeaderOnWire(count: u32, size: u32, items: bytes)
    ensures var b := Framed(count, size, items);
            && |b| == 8 + |items| && b[8..] == items
            && b[..8] == Octets4(count) + Octets4(size)
  {
    InOctets4(count);
    InOctets4(size);
  }

  /** A key record: id, key bytes, expiry, attribute data. */
  function RecordOctets(key: LeKeyRecord): bytes {
    Octets4(key.keyId) + key.key + Octets4(key.expireTime) + Octets8(key.attributeData)
  }

  lemma {:induction false} RecordOnWire(key: LeKeyRecord)
    ensures RecordBytes(key) == RecordOctets(key)
  {
    InOctets4(key.keyId);
    InOctets4(key.expireTime);
    InOctets8(key.attributeData);
  }

  /** A key batch: the count modulo 2^32, the item length 32, the records. */
  lemma {:induction false} LoadOnWire(keys: seq<LeKeyRecord>)
    ensures var b := LoadRequest(keys);
            && |b| == 8 + 32 * |keys|
            && b[..8] == Octets4(|keys| % 0x1_0000_0000) + [0, 0, 0, 32]
            && forall i :: 0 <= i < |keys| ==> b[8 + 32 * i..40 + 32 * i] == RecordOctets(keys[i])
  {
    hide LoadRequest, Records, Octets4, RecordOctets;
    var b := LoadRequest(keys);
    LoadHead(keys);
    forall i | 0 <= i < |keys|
      ensures b[8 + 32 * i..40 + 32 * i] == RecordOctets(keys[i])
    {
      RecordInBatch(b, keys, i);
    }
  }

  lemma {:induction false} ItemLengths()
    ensures Octets4(4) == [0, 0, 0, 4] && Octets4(32) == [0, 0, 0, 32]
  {
  }

  lemma {:induction false} LoadHead(keys: seq<LeKeyRecord>)
    ensures var b := LoadRequest(keys);
            && |b| == 8 + 32 * |keys| && b[8..] == Records(keys)
            && b[..8] == Octets4(|keys| % 0x1_0000_0000) + [0, 0, 0, 32]
  {
    assert keys == [] ==> Records(keys) == [];
    hide Records, Octets4;
    HeaderOnWire(|keys| % 0x1_0000_0000, 32, Records(keys));
    ItemLengths();
    if keys != [] {
      RecordSlice(keys, 0);
    }
  }

  lemma {:induction false} RecordInBatch(b: bytes, keys: seq<LeKeyRecord>, i: nat)
    requires i < |keys| && |b| == 8 + 32 * |keys| && b[8..] == Records(keys)
    ensures b[8 + 32 * i..40 + 32 * i] == RecordOctets(keys[i])
  {
    hide Records, RecordOctets, RecordBytes;
    RecordSlice(keys, i);
    RecordOnWire(keys[i]);
    assert b[8 + 32 * i..40 + 32 * i] == b[8..][32 * i..32 * i + 32];
  }

  /** A window: start and stop. */
  lemma {:induction false} WindowOnWire(start: u32, stop: u32)
    ensures ListRequest(start, stop) == Octets4(start) + Octets4(stop)
  {
    InOctets4(start);
    InOctets4(stop);
  }

  // ---- The sample frames of the documentation, for any ids and contents ----

  lemma {:induction false} SampleHeads()
    ensures Head(Label(GetTime, false), 4)
         == [0x06, 0x0e, 0x2b, 0x34, 0x02, 0x05, 0x01, 0x01, 0x02, 0x07, 0x01, 0x02, 0x10, 0x00, 0x00, 0x00,
             0x83, 0x00, 0x00, 0x04]
    ensures Head(Label(GetEventList, true), 0x19)
         == [0x06, 0x0e, 0x2b, 0x34, 0x02, 0x05, 0x01, 0x01, 0x02, 0x07, 0x01, 0x02, 0x13, 0x00, 0x00, 0x00,
             0x83, 0x00, 0x00, 0x19]
    ensures Head(Label(LeKeyLoad, false), 0x2c)
         == [0x06, 0x0e, 0x2b, 0x34, 0x02, 0x05, 0x01, 0x01, 0x02, 0x07, 0x01, 0x03, 0x20, 0x00, 0x00, 0x00,
             0x83, 0x00, 0x00, 0x2c]
    ensures Head(Label(QuerySpb, true), 7)
         == [0x06, 0x0e, 0x2b, 0x34, 0x02, 0x05, 0x01, 0x01, 0x02, 0x07, 0x01, 0x02, 0x17, 0x00, 0x00, 0x00,
             0x83, 0x00, 0x00, 0x07]
  {
  }

  lemma {:induction false} GetTimeRequestFrame(id: u32)
    ensures RequestFrame(StandardRequest(GetTime, id, []))
         == Ok([0x06, 0x0e, 0x2b, 0x34, 0x02, 0x05, 0x01, 0x01, 0x02, 0x07, 0x01, 0x02, 0x10, 0x00, 0x00, 0x00,
                0x83, 0x00, 0x00, 0x04] + Octets4(id))
  {
    hide RequestFrame, Label, Head;
    RequestOnWire(StandardRequest(GetTime, id, []));
    SampleHeads();
    assert Octets4(id) + [] == Octets4(id);
  }

  /** The value of a successful response: id, payload, code. */
  lemma {:induction false} SuccessOnWire(c: Command, id: u32, payload: bytes)
    requires c != BadRequest && 5 + |payload| <= 0xff_ffff
    ensures ResponseFrame(StandardResponse(c, Some(id), payload, Successful))
         == Ok(Head(Label(c, true), 5 + |payload|) + Octets4(id) + payload + [0x00])
  {
    hide ResponseFrame, Label, Head;
    ResponseOnWire(StandardResponse(c, Some(id), payload, Successful));
    var head := Head(Label(c, true), 5 + |payload|);
    assert |Octets4(id)| == 4;
    hide Octets4;
    assert head + (Octets4(id) + payload + [0x00]) == head + Octets4(id) + payload + [0x00];
  }

  lemma {:induction false} SampleNumbers()
    ensures Octets4(3) == [0x00, 0x00, 0x00, 0x03] && Octets4(1001) == [0x00, 0x00, 0x03, 0xe9]
    ensures Octets4(1002) == [0x00, 0x00, 0x03, 0xea] && Octets4(1003) == [0x00, 0x00, 0x03, 0xeb]
  {
  }

  lemma {:induction false} ThreeIdsOnWire(x: u32, y: u32, z: u32)
    ensures U32Batch.Encoded([x, y, z]) == Octets4(3) + [0, 0, 0, 4] + Octets4(x) + Octets4(y) + Octets4(z)
  {
    var b := U32Batch.Encoded([x, y, z]);
    IdsOnWire([x, y, z]);
    hide U32Batch.Encoded, Octets4;
    assert b[8 + 4 * 0..12 + 4 * 0] == Octets4([x, y, z][0]);
    assert b[8 + 4 * 1..12 + 4 * 1] == Octets4([x, y, z][1]);
    assert b[8 + 4 * 2..12 + 4 * 2] == Octets4([x, y, z][2]);
    assert b == b[..8] + b[8..12] + b[12..16] + b[16..20];
  }

  lemma {:induction false} ThreeIds()
    ensures U32Batch.Encoded([1001, 1002, 1003])
         == [0x00, 0x00, 0x00, 0x03, 0x00, 0x00, 0x00, 0x04,
             0x00, 0x00, 0x03, 0xe9, 0x00, 0x00, 0x03, 0xea, 0x00, 0x00, 0x03, 0xeb]
  {
    hide U32Batch.Encoded, Octets4;
    ThreeIdsOnWire(1001, 1002, 1003);
    SampleNumbers();
  }

  /** GetEventList answered with the events 1001, 1002 and 1003. */
  lemma {:induction false} EventListResponseFrame(id: u32)
    ensures ResponseFrame(StandardResponse(GetEventList, Some(id), U32Batch.Encoded([1001, 1002, 1003]), Successful))
         == Ok([0x06, 0x0e, 0x2b, 0x34, 0x02, 0x05, 0x01, 0x01, 0x02, 0x07, 0x01, 0x02, 0x13, 0x00, 0x00, 0x00,
                0x83, 0x00, 0x00, 0x19] + Octets4(id)
               + [0x00, 0x00, 0x00, 0x03, 0x00, 0x00, 0x00, 0x04,
                  0x00, 0x00, 0x03, 0xe9, 0x00, 0x00, 0x03, 0xea, 0x00, 0x00, 0x03, 0xeb]
               + [0x00])
  {
    hide ResponseFrame, Label, Head, Octets4, U32Batch.Encoded;
    ThreeIds();
    SuccessOnWire(GetEventList, id, U32Batch.Encoded([1001, 1002, 1003]));
    SampleHeads();
  }

  /** LEKeyLoad with one record. */
  lemma {:induction false} LoadRequestFrame(id: u32, key: LeKeyRecord)
    ensures RequestFrame(StandardRequest(LeKeyLoad, id, LoadRequest([key])))
         == Ok([0x06, 0x0e, 0x2b, 0x34, 0x02, 0x05, 0x01, 0x01, 0x02, 0x07, 0x01, 0x03, 0x20, 0x00, 0x00, 0x00,
                0x83, 0x00, 0x00, 0x2c]
               + (Octets4(id)
                  + ([0x00, 0x00, 0x00, 0x01, 0x00, 0x00, 0x00, 0x20]
                     + (Octets4(key.keyId) + key.key + Octets4(key.expireTime) + Octets8(key.attributeData)))))
  {
    OneRecord(key);
    assert |Octets4(id)| == 4;
    hide RequestFrame, Label, Head, Octets4, Octets8, LoadRequest;
    RequestOnWire(StandardRequest(LeKeyLoad, id, LoadRequest([key])));
    SampleHeads();
  }

  lemma {:induction false} OneItem()
    ensures Octets4(1) + [0, 0, 0, 32] == [0x00, 0x00, 0x00, 0x01, 0x00, 0x00, 0x00, 0x20]
  {
  }

  lemma {:induction false} OneRecord(key: LeKeyRecord)
    ensures LoadRequest([key])
         == [0x00, 0x00, 0x00, 0x01, 0x00, 0x00, 0x00, 0x20]
            + RecordOctets(key)
    ensures |LoadRequest([key])| == 40
  {
    hide LoadRequest, Records, Octets4, RecordOctets;
    var b := LoadRequest([key]);
    OneItem();
    LoadHead([key]);
    RecordInBatch(b, [key], 0);
    assert b == b[..8] + b[8 + 32 * 0..40 + 32 * 0];
  }

  /** QuerySPB answered with version 1 and a status. */
  lemma {:induction false} StatusResponseFrame(id: u32, status: byte)
    ensures ResponseFrame(StandardResponse(QuerySpb, Some(id), [1, status], Successful))
         == Ok([0x06, 0x0e, 0x2b, 0x34, 0x02, 0x05, 0x01, 0x01, 0x02, 0x07, 0x01, 0x02, 0x17, 0x00, 0x00, 0x00,
                0x83, 0x00, 0x00, 0x07] + Octets4(id) + [0x01, status] + [0x00])
  {
    hide ResponseFrame, Label, Head, Octets4;
    SuccessOnWire(QuerySpb, id, [1, status]);
    SampleHeads();
  }

  /** BadRequest: the request copied and the code invalid. */
  lemma {:induction false} BadRequestFrame(raw: bytes)
    requires |raw| < 0xff_ffff
    ensures ResponseFrame(StandardResponse(BadRequest, None, raw, Invalid))
         == Ok([0x06, 0x0e, 0x2b, 0x34, 0x02, 0x05, 0x01, 0x01, 0x02, 0x07, 0x01, 0x01, 0x01, 0x00, 0x00, 0x00]
               + [0x83] + Octets3(|raw| + 1) + (raw + [0x02]))
  {
    hide ResponseFrame;
    ResponseOnWire(StandardResponse(BadRequest, None, raw, Invalid));
    assert [] + raw + [0x02] == raw + [0x02];
  }
}
