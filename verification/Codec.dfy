/** Requests and responses as KLV packets: label table, request id, payload, response code. */
module Codec {
  import opened Prelude
  import opened BigEndian
  import opened Klv

  datatype Command =
    | BadRequest
    | GetTime | GetEventList | GetEventId | QuerySpb
    | LeKeyLoad | LeKeyQueryId | LeKeyQueryAll | LeKeyPurgeId | LeKeyPurgeAll

  datatype GeneralResponse = Successful | Failed | Invalid | Busy

  datatype StandardRequest = StandardRequest(command: Command, requestId: u32, payload: bytes)

  datatype StandardResponse = StandardResponse(
    command: Command, requestId: Option<u32>, payload: bytes, code: GeneralResponse)

  datatype CommandDescriptor = CommandDescriptor(command: Command, response: bool)

  // ---- The label table ----

  datatype UlMapEntry = UlMapEntry(descriptor: CommandDescriptor, ul: Ul)

  function MakeUl(byte12: byte, byte13: byte): Ul {
    [0x06, 0x0e, 0x2b, 0x34, 0x02, 0x05, 0x01, 0x01,
     0x02, 0x07, 0x01, byte12, byte13, 0x00, 0x00, 0x00]
  }

  function Entry(command: Command, response: bool, byte12: byte, byte13: byte): UlMapEntry {
    UlMapEntry(CommandDescriptor(command, response), MakeUl(byte12, byte13))
  }

  const UL_MAP: seq<UlMapEntry> := [
    Entry(BadRequest, true, 0x01, 0x01),
    Entry(GetTime, false, 0x02, 0x10),
    Entry(GetTime, true, 0x02, 0x11),
    Entry(GetEventList, false, 0x02, 0x12),
    Entry(GetEventList, true, 0x02, 0x13),
    Entry(GetEventId, false, 0x02, 0x14),
    Entry(GetEventId, true, 0x02, 0x15),
    Entry(QuerySpb, false, 0x02, 0x16),
    Entry(QuerySpb, true, 0x02, 0x17),
    Entry(LeKeyLoad, false, 0x03, 0x20),
    Entry(LeKeyLoad, true, 0x03, 0x21),
    Entry(LeKeyQueryId, false, 0x03, 0x22),
    Entry(LeKeyQueryId, true, 0x03, 0x23),
    Entry(LeKeyQueryAll, false, 0x03, 0x24),
    Entry(LeKeyQueryAll, true, 0x03, 0x25),
    Entry(LeKeyPurgeId, false, 0x03, 0x26),
    Entry(LeKeyPurgeId, true, 0x03, 0x27),
    Entry(LeKeyPurgeAll, false, 0x03, 0x28),
    Entry(LeKeyPurgeAll, true, 0x03, 0x29)
  ]

  /** The first of the last `left` entries that is for a command and direction. */
  function FindDescriptor(d: CommandDescriptor, left: nat): (r: Result<nat>)
    requires left <= |UL_MAP|
    ensures r.Ok? ==> |UL_MAP| - left <= r.value < |UL_MAP| && UL_MAP[r.value].descriptor == d
    ensures r.Err? ==> forall j :: |UL_MAP| - left <= j < |UL_MAP| ==> UL_MAP[j].descriptor != d
  {
    var i := |UL_MAP| - left;
    if left == 0 then Err("missing UL mapping")
    else if UL_MAP[i].descriptor == d then Ok(i)
    else FindDescriptor(d, left - 1)
  }

  /** The first of the last `left` entries that has a label. */
  function FindUl(ul: Ul, left: nat): (r: Result<nat>)
    requires left <= |UL_MAP|
    ensures r.Ok? ==> |UL_MAP| - left <= r.value < |UL_MAP| && UL_MAP[r.value].ul == ul
    ensures r.Err? ==> forall j :: |UL_MAP| - left <= j < |UL_MAP| ==> UL_MAP[j].ul != ul
  {
    var i := |UL_MAP| - left;
    if left == 0 then Err("unknown ASM UL")
    else if UL_MAP[i].ul == ul then Ok(i)
    else FindUl(ul, left - 1)
  }

  function UlFor(command: Command, response: bool): Result<Ul> {
    var i :- FindDescriptor(CommandDescriptor(command, response), |UL_MAP|);
    Ok(UL_MAP[i].ul)
  }

  function DescribeUl(ul: Ul): Result<CommandDescriptor> {
    var i :- FindUl(ul, |UL_MAP|);
    Ok(UL_MAP[i].descriptor)
  }

  /** One step of either search: look at entry `i`, then at the entries after it. */
  lemma {:induction false} DescriptorStep(d: CommandDescriptor, i: nat)
    requires i < |UL_MAP|
    ensures FindDescriptor(d, |UL_MAP| - i)
         == if UL_MAP[i].descriptor == d then Ok(i) else FindDescriptor(d, |UL_MAP| - (i + 1))
  {
  }

  lemma {:induction false} UlStep(ul: Ul, i: nat)
    requires i < |UL_MAP|
    ensures FindUl(ul, |UL_MAP| - i) == if UL_MAP[i].ul == ul then Ok(i) else FindUl(ul, |UL_MAP| - (i + 1))
  {
  }

  lemma {:induction false} NothingLeft(d: CommandDescriptor, ul: Ul)
    ensures FindDescriptor(d, 0) == Err("missing UL mapping") && FindUl(ul, 0) == Err("unknown ASM UL")
  {
  }

  method LookupEntry(command: Command, response: bool) returns (r: Result<UlMapEntry>)
    ensures match FindDescriptor(CommandDescriptor(command, response), |UL_MAP|)
            case Ok(i) => r == Ok(UL_MAP[i])
            case Err(e) => r == Err(e)
  {
    hide FindDescriptor, Entry, MakeUl;
    for i := 0 to |UL_MAP|
      invariant FindDescriptor(CommandDescriptor(command, response), |UL_MAP|)
             == FindDescriptor(CommandDescriptor(command, response), |UL_MAP| - i)
    {
      DescriptorStep(CommandDescriptor(command, response), i);
      if UL_MAP[i].descriptor.command == command && UL_MAP[i].descriptor.response == response {
        return Ok(UL_MAP[i]);
      }
    }
    NothingLeft(CommandDescriptor(command, response), UL_MAP[0].ul);
    r := Err("missing UL mapping");
  }

  method ScanUl(ul: Ul) returns (r: Result<CommandDescriptor>)
    ensures r == DescribeUl(ul)
  {
    hide FindUl, Entry, MakeUl;
    for i := 0 to |UL_MAP|
      invariant FindUl(ul, |UL_MAP|) == FindUl(ul, |UL_MAP| - i)
    {
      UlStep(ul, i);
      if UL_MAP[i].ul == ul {
        return Ok(UL_MAP[i].descriptor);
      }
    }
    NothingLeft(UL_MAP[0].descriptor, ul);
    r := Err("unknown ASM UL");
  }

  /** Every command and direction but the BadRequest request has an entry. */
  function IndexOf(d: CommandDescriptor): (i: nat)
    requires d.response || d.command != BadRequest
    ensures i < |UL_MAP| && UL_MAP[i].descriptor == d
  {
    var back := if d.response then 0 else 1;
    match d.command
    case BadRequest => 0
    case GetTime => 2 - back
    case GetEventList => 4 - back
    case GetEventId => 6 - back
    case QuerySpb => 8 - back
    case LeKeyLoad => 10 - back
    case LeKeyQueryId => 12 - back
    case LeKeyQueryAll => 14 - back
    case LeKeyPurgeId => 16 - back
    case LeKeyPurgeAll => 18 - back
  }

  /** Along the table byte 13 of the label grows, so labels and descriptors are both unique. */
  lemma {:induction false} TableInjective()
    ensures forall i, j :: 0 <= i < j < |UL_MAP| ==> UL_MAP[i].ul != UL_MAP[j].ul
    ensures forall i :: 0 <= i < |UL_MAP| ==> IndexOf.requires(UL_MAP[i].descriptor) && IndexOf(UL_MAP[i].descriptor) == i
  {
    forall i, j | 0 <= i < j < |UL_MAP|
      ensures UL_MAP[i].ul != UL_MAP[j].ul
    {
      Byte13Grows(i, j);
    }
  }

  lemma {:induction false} Byte13Grows(i: nat, j: nat)
    requires i < j < |UL_MAP|
    ensures UL_MAP[i].ul[12] < UL_MAP[j].ul[12]
    decreases j
  {
    if i < j - 1 {
      Byte13Grows(i, j - 1);
    }
  }

  lemma {:induction false} UlFound(i: nat)
    requires i < |UL_MAP|
    ensures FindUl(UL_MAP[i].ul, |UL_MAP|) == Ok(i)
  {
    TableInjective();
  }

  lemma {:induction false} DescriptorFound(i: nat)
    requires i < |UL_MAP|
    ensures FindDescriptor(UL_MAP[i].descriptor, |UL_MAP|) == Ok(i)
  {
    TableInjective();
  }

  /** The table is a bijection between its labels and the commands that have one. */
  lemma {:induction false} LabelsIdentifyCommands(command: Command, response: bool)
    ensures UlFor(command, response).Ok? <==> response || command != BadRequest
    ensures UlFor(command, response).Ok? ==>
              DescribeUl(UlFor(command, response).value) == Ok(CommandDescriptor(command, response))
  {
    var d := CommandDescriptor(command, response);
    if response || command != BadRequest {
      DescriptorFound(IndexOf(d));
      UlFound(IndexOf(d));
    } else if FindDescriptor(d, |UL_MAP|).Ok? {
      NoBadRequestRequest(FindDescriptor(d, |UL_MAP|).value);
    }
  }

  lemma {:induction false} NoBadRequestRequest(i: nat)
    requires i < |UL_MAP|
    ensures UL_MAP[i].descriptor != CommandDescriptor(BadRequest, false)
  {
    TableInjective();
  }

  lemma {:induction false} CommandsIdentifyLabels(ul: Ul)
    requires DescribeUl(ul).Ok?
    ensures UlFor(DescribeUl(ul).value.command, DescribeUl(ul).value.response) == Ok(ul)
  {
    TableInjective();
  }

  // ---- Packets ----

  function EncodeResponseCode(code: GeneralResponse): byte {
    match code
    case Successful => 0
    case Failed => 1
    case Invalid => 2
    case Busy => 3
  }

  function DecodeResponseCode(value: byte): Result<GeneralResponse> {
    match value
    case 0 => Ok(Successful)
    case 1 => Ok(Failed)
    case 2 => Ok(Invalid)
    case 3 => Ok(Busy)
    case _ => Err("invalid general response code")
  }

  function RequestValue(request: StandardRequest): bytes {
    ToBe(request.requestId, 4) + request.payload
  }

  function ValueRequest(command: Command, value: bytes): Result<StandardRequest> {
    if |value| < 4 then Err("request payload too short for request id")
    else Ok(StandardRequest(command, ReadU32(value, 0).value, value[4..]))
  }

  function RequestPacket(request: StandardRequest): Result<KlvPacket> {
    var ul :- UlFor(request.command, false);
    var value := RequestValue(request);
    Ok(KlvPacket(ul, TruncateU32(|value|), value))
  }

  function PacketRequest(packet: KlvPacket): Result<StandardRequest> {
    var d :- DescribeUl(packet.ul);
    if d.response then Err("request packet expected") else ValueRequest(d.command, packet.value)
  }

  /** The value field of a response that carries the id its command needs. */
  function ResponseValue(response: StandardResponse): bytes
    requires response.command != BadRequest ==> response.requestId.Some?
  {
    (if response.command == BadRequest then [] else ToBe(response.requestId.value, 4))
    + response.payload + [EncodeResponseCode(response.code)]
  }

  function ValueResponse(command: Command, value: bytes): Result<StandardResponse> {
    if value == [] then Err("response payload too short")
    else
      var last := |value| - 1;
      var code :- DecodeResponseCode(value[last]);
      if command == BadRequest then
        Ok(StandardResponse(BadRequest, None, value[..last], code))
      else if |value| < 5 then Err("response payload too short for request id")
      else
        Ok(StandardResponse(command, Some(ReadU32(value, 0).value), value[4..last], code))
  }

  function ResponsePacket(response: StandardResponse): Result<KlvPacket> {
    var ul :- UlFor(response.command, true);
    if response.command != BadRequest && response.requestId.None? then Err("response request id missing")
    else
      var value := ResponseValue(response);
      Ok(KlvPacket(ul, TruncateU32(|value|), value))
  }

  function PacketResponse(packet: KlvPacket): Result<StandardResponse> {
    var d :- DescribeUl(packet.ul);
    if !d.response then Err("response packet expected")
    else ValueResponse(d.command, packet.value)
  }

  method EncodeRequest(request: StandardRequest) returns (r: Result<KlvPacket>)
    ensures r == RequestPacket(request)
  {
    var entry :- LookupEntry(request.command, false);
    var value := [];
    value := value + ToBe(request.requestId, 4);
    value := value + request.payload;
    assert value == RequestValue(request);
    r := Ok(KlvPacket(entry.ul, TruncateU32(|value|), value));
  }

  method DecodeRequest(packet: KlvPacket) returns (r: Result<StandardRequest>)
    ensures r == PacketRequest(packet)
  {
    var descriptor :- ScanUl(packet.ul);
    if descriptor.response {
      return Err("request packet expected");
    }
    if |packet.value| < 4 {
      return Err("request payload too short for request id");
    }
    var request := StandardRequest(GetTime, 0, []);
    request := request.(command := descriptor.command);
    request := request.(requestId := ReadU32(packet.value, 0).value);
    request := request.(payload := packet.value[4..]);
    r := Ok(request);
  }

  method EncodeResponse(response: StandardResponse) returns (r: Result<KlvPacket>)
    ensures r == ResponsePacket(response)
  {
    var entry :- LookupEntry(response.command, true);
    var value := [];
    if response.command != BadRequest {
      if response.requestId.None? {
        return Err("response request id missing");
      }
      value := value + ToBe(response.requestId.value, 4);
    }
    value := value + response.payload;
    value := value + [EncodeResponseCode(response.code)];
    assert value == ResponseValue(response);
    r := Ok(KlvPacket(entry.ul, TruncateU32(|value|), value));
  }

  method DecodeResponse(packet: KlvPacket) returns (r: Result<StandardResponse>)
    ensures r == PacketResponse(packet)
  {
    var descriptor :- ScanUl(packet.ul);
    if !descriptor.response {
      return Err("response packet expected");
    }
    if packet.value == [] {
      return Err("response payload too short");
    }
    var response := StandardResponse(BadRequest, None, [], Successful);
    response := response.(command := descriptor.command);
    var code :- DecodeResponseCode(packet.value[|packet.value| - 1]);
    response := response.(code := code);
    if descriptor.command == BadRequest {
      return Ok(response.(payload := packet.value[..|packet.value| - 1]));
    }
    if |packet.value| < 5 {
      return Err("response payload too short for request id");
    }
    response := response.(requestId := Some(ReadU32(packet.value, 0).value));
    r := Ok(response.(payload := packet.value[4..|packet.value| - 1]));
  }

  // ---- Whole frames ----

  function RequestFrame(request: StandardRequest): Result<bytes> {
    var packet :- RequestPacket(request);
    Encoded(packet)
  }

  function FrameRequest(b: bytes): Result<StandardRequest> {
    var packet :- Decoded(b);
    PacketRequest(packet)
  }

  function ResponseFrame(response: StandardResponse): Result<bytes> {
    var packet :- ResponsePacket(response);
    Encoded(packet)
  }

  function FrameResponse(b: bytes): Result<StandardResponse> {
    var packet :- Decoded(b);
    PacketResponse(packet)
  }

  lemma {:induction false} RequestValueRoundTrip(request: StandardRequest)
    ensures |RequestValue(request)| == 4 + |request.payload|
    ensures ValueRequest(request.command, RequestValue(request)) == Ok(request)
  {
    var value := RequestValue(request);
    ReadBackU32([], request.requestId, request.payload);
    assert value == [] + ToBe(request.requestId, 4) + request.payload;
    assert value[4..] == request.payload;
  }

  lemma {:induction false} RequestValueReencodes(command: Command, value: bytes)
    requires ValueRequest(command, value).Ok?
    ensures var request := ValueRequest(command, value).value;
            request.command == command && RequestValue(request) == value
  {
    WriteBack(value, 0);
    assert value == value[0..4] + value[4..];
  }

  /** A packet that holds a label and a value of the announced length is framed, and read
      back, as that label and value. */
  lemma {:induction false} FrameOf(ul: Ul, value: bytes)
    ensures var framed := Encoded(KlvPacket(ul, TruncateU32(|value|), value));
            && (framed.Ok? <==> |value| <= MAX_LENGTH)
            && (framed.Ok? ==> |framed.value| == 20 + |value|
                               && Decoded(framed.value) == Ok(KlvPacket(ul, |value|, value)))
  {
    var packet := KlvPacket(ul, TruncateU32(|value|), value);
    EncodesExactly(packet);
    if Encoded(packet).Ok? {
      DecodeEncoded(packet);
    }
  }

  lemma {:induction false} Reframed(b: bytes)
    requires Decoded(b).Ok?
    ensures var packet := Decoded(b).value;
            packet.length == TruncateU32(|packet.value|) && Encoded(packet) == Ok(b)
  {
    EncodeDecoded(b);
    EncodesExactly(Decoded(b).value);
  }

  /** A request can be framed unless it is a BadRequest or its payload is over 2^24 - 5
      bytes, and a framed request is read back unchanged. */
  lemma {:induction false} RequestRoundTrip(request: StandardRequest)
    ensures RequestFrame(request).Ok? <==> request.command != BadRequest && |request.payload| + 4 <= 0xff_ffff
    ensures RequestFrame(request).Ok? ==> FrameRequest(RequestFrame(request).value) == Ok(request)
  {
    LabelsIdentifyCommands(request.command, false);
    RequestValueRoundTrip(request);
    if request.command != BadRequest {
      FrameOf(UlFor(request.command, false).value, RequestValue(request));
    }
  }

  /** Whatever is accepted as a request is the frame of the request it was read as. */
  lemma {:induction false} RequestReencodes(b: bytes)
    requires FrameRequest(b).Ok?
    ensures RequestFrame(FrameRequest(b).value) == Ok(b)
  {
    var packet := Decoded(b).value;
    Reframed(b);
    CommandsIdentifyLabels(packet.ul);
    RequestValueReencodes(DescribeUl(packet.ul).value.command, packet.value);
  }

  lemma {:induction false} RequestLabel(ul: Ul)
    ensures (exists c: Command :: UlFor(c, false) == Ok(ul)) <==> DescribeUl(ul).Ok? && !DescribeUl(ul).value.response
    ensures DescribeUl(ul).Ok? && !DescribeUl(ul).value.response ==> UlFor(DescribeUl(ul).value.command, false) == Ok(ul)
  {
    hide UlFor, DescribeUl;
    if DescribeUl(ul).Ok? {
      CommandsIdentifyLabels(ul);
    }
    forall c: Command | UlFor(c, false) == Ok(ul)
      ensures DescribeUl(ul) == Ok(CommandDescriptor(c, false))
    {
      LabelsIdentifyCommands(c, false);
    }
  }

  /** The acceptance condition for requests, read off the bytes of the frame. */
  lemma {:induction false} RequestAccepted(b: bytes)
    ensures FrameRequest(b).Ok? <==>
            WellFormed(b) && |b| >= 24 && exists c: Command :: UlFor(c, false) == Ok(b[..16])
    ensures FrameRequest(b).Ok? ==>
            && UlFor(FrameRequest(b).value.command, false) == Ok(b[..16])
            && FrameRequest(b).value.requestId == FromBe(b[20..24])
            && FrameRequest(b).value.payload == b[24..]
  {
    hide UlFor, DescribeUl, FromBe, Decoded, WellFormed;
    DecodesExactlyWellFormed(b);
    if WellFormed(b) {
      var packet := Decoded(b).value;
      RequestLabel(packet.ul);
      if |b| >= 24 {
        assert packet.value[0..4] == b[20..24];
        assert packet.value[4..] == b[24..];
      }
    }
  }

  /** What the client is left with: a BadRequest reply carries no request id. */
  function Received(response: StandardResponse): StandardResponse {
    if response.command == BadRequest then response.(requestId := None) else response
  }

  lemma {:induction false} ResponseValueRoundTrip(response: StandardResponse)
    requires response.command != BadRequest ==> response.requestId.Some?
    ensures |ResponseValue(response)| == (if response.command == BadRequest then 1 else 5) + |response.payload|
    ensures ValueResponse(response.command, ResponseValue(response)) == Ok(Received(response))
  {
    var value := ResponseValue(response);
    var last := |value| - 1;
    if response.command == BadRequest {
      assert value[..last] == response.payload;
    } else {
      var id, after := response.requestId.value, response.payload + [EncodeResponseCode(response.code)];
      ReadBackU32([], id, after);
      assert value == [] + ToBe(id, 4) + after;
      assert value[4..last] == response.payload;
    }
  }

  lemma {:induction false} CodeReencodes(code: byte)
    ensures DecodeResponseCode(code).Ok? ==> EncodeResponseCode(DecodeResponseCode(code).value) == code
  {
  }

  lemma {:induction false} BadValueReencodes(value: bytes)
    requires ValueResponse(BadRequest, value).Ok?
    ensures var response := ValueResponse(BadRequest, value).value;
            response.command == BadRequest && response.requestId == None && ResponseValue(response) == value
  {
    hide DecodeResponseCode, EncodeResponseCode, ToBe, ReadU32;
    var last := |value| - 1;
    CodeReencodes(value[last]);
    assert value == [] + value[..last] + [value[last]];
  }

  lemma {:induction false} InThree(value: bytes, last: nat)
    requires |value| >= 5 && last == |value| - 1
    ensures value == value[0..4] + value[4..last] + [value[last]]
  {
  }

  lemma {:induction false} ResponseValueReencodes(command: Command, value: bytes)
    requires ValueResponse(command, value).Ok?
    ensures var response := ValueResponse(command, value).value;
            && response.command == command
            && (response.requestId.Some? <==> command != BadRequest)
            && ResponseValue(response) == value
  {
    hide DecodeResponseCode, EncodeResponseCode, ToBe, ReadU32;
    if command == BadRequest {
      BadValueReencodes(value);
    } else {
      CodeReencodes(value[|value| - 1]);
      WriteBack(value, 0);
      InThree(value, |value| - 1);
    }
  }

  /** A response can be framed exactly when it carries the id its command needs and fits;
      the client reads the frame as the same response, less the id of a BadRequest. */
  lemma {:induction false} ResponseRoundTrip(response: StandardResponse)
    ensures ResponseFrame(response).Ok? <==>
            && (response.command != BadRequest ==> response.requestId.Some?)
            && (if response.command == BadRequest then 1 else 5) + |response.payload| <= 0xff_ffff
    ensures ResponseFrame(response).Ok? ==>
            && FrameResponse(ResponseFrame(response).value) == Ok(Received(response))
            && |ResponseFrame(response).value|
               == 20 + (if response.command == BadRequest then 1 else 5) + |response.payload|
  {
    LabelsIdentifyCommands(response.command, true);
    if response.command != BadRequest ==> response.requestId.Some? {
      ResponseValueRoundTrip(response);
      FrameOf(UlFor(response.command, true).value, ResponseValue(response));
    }
  }

  /** Whatever a client accepts as a response is the frame of the response it was read as. */
  lemma {:induction false} ResponseReencodes(b: bytes)
    requires FrameResponse(b).Ok?
    ensures ResponseFrame(FrameResponse(b).value) == Ok(b)
    ensures FrameResponse(b).value.requestId.Some? <==> FrameResponse(b).value.command != BadRequest
  {
    var packet := Decoded(b).value;
    Reframed(b);
    CommandsIdentifyLabels(packet.ul);
    ResponseValueReencodes(DescribeUl(packet.ul).value.command, packet.value);
  }
}
