/** Request dispatch: what each command answers and what it does to the key store. */
module Service {
  import opened Prelude
  import opened BigEndian
  import opened Codec
  import opened KeyRecords
  import opened KeyList
  import opened KeyStores
  import opened EventLog
  import U32Batch

  datatype QuerySpbStatus = NotPlaying | Playing | SecurityAlert

  /** What a service answers from besides its key store. */
  datatype Env = Env(events: seq<EventRecord>, status: QuerySpbStatus)

  datatype ServiceResult = ServiceResult(response: StandardResponse, note: string)

  // ---- Payloads of one field ----

  function Flag(b: bool): bytes {
    [if b then 1 else 0]
  }

  function StatusByte(status: QuerySpbStatus): byte {
    match status
    case NotPlaying => 0
    case Playing => 1
    case SecurityAlert => 2
  }

  function ParseKeyId(name: string, b: bytes): Result<u32> {
    if |b| != 4 then Err(name + " request payload must be 4 bytes") else Ok(ReadU32(b, 0).value)
  }

  // ---- The handlers as functions of the store ----

  function Answer(request: StandardRequest, payload: bytes, code: GeneralResponse, note: string): ServiceResult {
    ServiceResult(StandardResponse(request.command, Some(request.requestId), payload, code), note)
  }

  function BadRequestResult(raw: bytes, reason: string): ServiceResult {
    ServiceResult(StandardResponse(BadRequest, None, raw, Invalid), reason)
  }

  function HandleGetEventList(env: Env, request: StandardRequest): Result<ServiceResult> {
    var (start, stop) :- ParseListRequest(request.payload);
    if start > stop then
      Ok(Answer(request, [], Invalid, "GetEventList rejected because time_start > time_stop"))
    else
      Ok(Answer(request, U32Batch.Encoded(EventIds(Window(env.events, start, stop))), Successful, "GetEventList handled"))
  }

  function HandleGetEventId(env: Env, request: StandardRequest): Result<ServiceResult> {
    var id :- ParseIdRequest(request.payload);
    XmlOfIsText(env.events, id);
    match XmlOf(env.events, id)
    case None => Ok(Answer(request, [], Invalid, "GetEventID rejected because event id was not found"))
    case Some(xml) => Ok(Answer(request, TextBytes(xml), Successful, "GetEventID handled"))
  }

  function HandleQuerySpb(env: Env, request: StandardRequest): ServiceResult {
    if request.payload != [] then Answer(request, [], Invalid, "QuerySPB rejected because payload was not empty")
    else Answer(request, [1, StatusByte(env.status)], Successful, "QuerySPB handled")
  }

  function HandleLoad(s: Store, request: StandardRequest, canOpen: bool): Outcome<ServiceResult> {
    match ParseLoadRequest(request.payload)
    case Err(what) => Outcome(s, Err(what))
    case Ok(batch) =>
      var loaded := Load(s, batch, canOpen);
      Outcome(loaded.store,
              match loaded.result
              case Err(what) => Err(what)
              case Ok(overflow) =>
                if overflow then
                  Ok(Answer(request, Flag(true), Failed, "LEKeyLoad rejected because key buffer would overflow"))
                else
                  Ok(Answer(request, Flag(false), Successful, "LEKeyLoad handled")))
  }

  function HandleQueryId(s: Store, request: StandardRequest): Result<ServiceResult> {
    var id :- ParseKeyId("LEKeyQueryID", request.payload);
    Ok(Answer(request, Flag(Lookup(s.keys, id).Some?), Successful, "LEKeyQueryID handled"))
  }

  function HandleQueryAll(s: Store, request: StandardRequest): ServiceResult {
    if request.payload != [] then Answer(request, [], Invalid, "LEKeyQueryAll rejected because payload was not empty")
    else Answer(request, U32Batch.Encoded(Ids(s.keys)), Successful, "LEKeyQueryAll handled")
  }

  function HandlePurgeId(s: Store, request: StandardRequest, canOpen: bool): Outcome<ServiceResult> {
    match ParseKeyId("LEKeyPurgeID", request.payload)
    case Err(what) => Outcome(s, Err(what))
    case Ok(id) =>
      var purged := Purge(s, id, canOpen);
      Outcome(purged.store,
              match purged.result
              case Err(what) => Err(what)
              case Ok(removed) =>
                Ok(Answer(request, Flag(!removed), Successful,
                          if removed then "LEKeyPurgeID handled" else "LEKeyPurgeID handled with missing key id")))
  }

  function HandlePurgeAll(s: Store, request: StandardRequest, canOpen: bool): Outcome<ServiceResult> {
    if request.payload != [] then
      Outcome(s, Ok(Answer(request, [], Invalid, "LEKeyPurgeAll rejected because payload was not empty")))
    else
      var purged := PurgeAll(s, canOpen);
      Outcome(purged.store,
              match purged.result
              case Err(what) => Err(what)
              case Ok(_) => Ok(Answer(request, [], Successful, "LEKeyPurgeAll handled")))
  }

  /** `handle_request`: `now` is the clock, `canOpen` whether a key file can be opened. */
  function Handle(env: Env, s: Store, request: StandardRequest, raw: bytes, now: u64, canOpen: bool)
    : Outcome<ServiceResult>
  {
    if request.requestId == 0 then Outcome(s, Ok(BadRequestResult(raw, "request id must be non-zero")))
    else
      match request.command
      case BadRequest => Outcome(s, Ok(BadRequestResult(raw, "unsupported request command")))
      case GetTime => Outcome(s, Ok(Answer(request, ToBe(now, 8), Successful, "GetTime handled")))
      case GetEventList => Outcome(s, HandleGetEventList(env, request))
      case GetEventId => Outcome(s, HandleGetEventId(env, request))
      case QuerySpb => Outcome(s, Ok(HandleQuerySpb(env, request)))
      case LeKeyLoad => HandleLoad(s, request, canOpen)
      case LeKeyQueryId => Outcome(s, HandleQueryId(s, request))
      case LeKeyQueryAll => Outcome(s, Ok(HandleQueryAll(s, request)))
      case LeKeyPurgeId => HandlePurgeId(s, request, canOpen)
      case LeKeyPurgeAll => HandlePurgeAll(s, request, canOpen)
  }

  // ---- The service object ----

  class AsmService {
    const env: Env
    const store: StoreHandle

    constructor (env: Env, store: StoreHandle)
      ensures this.env == env && this.store == store
    {
      this.env := env;
      this.store := store;
    }

    method HandleRequest(request: StandardRequest, raw: bytes, now: u64, canOpen: bool) returns (r: Result<ServiceResult>)
      modifies store.Footprint()
      ensures Outcome(store.View(), r) == Handle(env, old(store.View()), request, raw, now, canOpen)
    {
      if request.requestId == 0 {
        return Ok(BadRequestResult(raw, "request id must be non-zero"));
      }
      match request.command {
        case BadRequest => r := Ok(BadRequestResult(raw, "unsupported request command"));
        case GetTime => r := Ok(Answer(request, ToBe(now, 8), Successful, "GetTime handled"));
        case GetEventList => r := EventListReply(request);
        case GetEventId => r := EventIdReply(request);
        case QuerySpb => r := Ok(HandleQuerySpb(env, request));
        case LeKeyLoad => r := LoadReply(request, canOpen);
        case LeKeyQueryId => r := QueryIdReply(request);
        case LeKeyQueryAll => r := QueryAllReply(request);
        case LeKeyPurgeId => r := PurgeIdReply(request, canOpen);
        case LeKeyPurgeAll => r := PurgeAllReply(request, canOpen);
      }
    }

    method EventListReply(request: StandardRequest) returns (r: Result<ServiceResult>)
      ensures r == HandleGetEventList(env, request)
    {
      var window :- ParseListRequest(request.payload);
      if window.0 > window.1 {
        return Ok(Answer(request, [], Invalid, "GetEventList rejected because time_start > time_stop"));
      }
      var ids := ListEventIds(env.events, window.0, window.1);
      var payload := U32Batch.Encode(ids);
      r := Ok(Answer(request, payload, Successful, "GetEventList handled"));
    }

    method EventIdReply(request: StandardRequest) returns (r: Result<ServiceResult>)
      ensures r == HandleGetEventId(env, request)
    {
      var id :- ParseIdRequest(request.payload);
      var xml := GetEventXml(env.events, id);
      if xml.None? {
        return Ok(Answer(request, [], Invalid, "GetEventID rejected because event id was not found"));
      }
      XmlOfIsText(env.events, id);
      r := Ok(Answer(request, TextBytes(xml.value), Successful, "GetEventID handled"));
    }

    method LoadReply(request: StandardRequest, canOpen: bool) returns (r: Result<ServiceResult>)
      modifies store.Footprint()
      ensures Outcome(store.View(), r) == HandleLoad(old(store.View()), request, canOpen)
    {
      var batch := DecodeLoadRequest(request.payload);
      if batch.Err? {
        return Err(batch.message);
      }
      var loaded := store.LoadKeys(batch.value, canOpen);
      if loaded.Err? {
        return Err(loaded.message);
      }
      var overflow := loaded.value;
      r := Ok(Answer(request, Flag(overflow), if overflow then Failed else Successful,
                     if overflow then "LEKeyLoad rejected because key buffer would overflow" else "LEKeyLoad handled"));
    }

    method QueryIdReply(request: StandardRequest) returns (r: Result<ServiceResult>)
      ensures r == HandleQueryId(store.View(), request)
    {
      var id :- ParseKeyId("LEKeyQueryID", request.payload);
      var present := store.ContainsKey(id);
      r := Ok(Answer(request, Flag(present), Successful, "LEKeyQueryID handled"));
    }

    method QueryAllReply(request: StandardRequest) returns (r: Result<ServiceResult>)
      ensures r == Ok(HandleQueryAll(store.View(), request))
    {
      if request.payload != [] {
        return Ok(Answer(request, [], Invalid, "LEKeyQueryAll rejected because payload was not empty"));
      }
      var ids := store.ListKeyIds();
      var payload := U32Batch.Encode(ids);
      r := Ok(Answer(request, payload, Successful, "LEKeyQueryAll handled"));
    }

    method PurgeIdReply(request: StandardRequest, canOpen: bool) returns (r: Result<ServiceResult>)
      modifies store.Footprint()
      ensures Outcome(store.View(), r) == HandlePurgeId(old(store.View()), request, canOpen)
    {
      var id := ParseKeyId("LEKeyPurgeID", request.payload);
      if id.Err? {
        return Err(id.message);
      }
      var purged := store.PurgeKey(id.value, canOpen);
      if purged.Err? {
        return Err(purged.message);
      }
      var removed := purged.value;
      r := Ok(Answer(request, Flag(!removed), Successful,
                     if removed then "LEKeyPurgeID handled" else "LEKeyPurgeID handled with missing key id"));
    }

    method PurgeAllReply(request: StandardRequest, canOpen: bool) returns (r: Result<ServiceResult>)
      modifies store.Footprint()
      ensures Outcome(store.View(), r) == HandlePurgeAll(old(store.View()), request, canOpen)
    {
      if request.payload != [] {
        return Ok(Answer(request, [], Invalid, "LEKeyPurgeAll rejected because payload was not empty"));
      }
      var cleared := store.Clear(canOpen);
      if cleared.Err? {
        return Err(cleared.message);
      }
      r := Ok(Answer(request, [], Successful, "LEKeyPurgeAll handled"));
    }
  }
}
