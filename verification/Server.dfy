/** One exchange: bytes in, decode, handle, encode, and the catch block, bytes out. */
module Server {
  import opened Prelude
  import opened BigEndian
  import opened Klv
  import opened Codec
  import opened Batch
  import opened KeyRecords
  import opened KeyList
  import opened KeyStores
  import opened EventLog
  import opened Service
  import U32Batch

  datatype SessionTrace = SessionTrace(command: Command, requestId: Option<u32>, status: GeneralResponse, note: string)

  const NEW_TRACE := SessionTrace(BadRequest, None, Successful, "")

  /** What an exchange leaves: the store, the frame sent (or the exception that escapes when
      even the BadRequest frame cannot be encoded), and the trace. */
  datatype Served = Served(store: Store, sent: Result<bytes>, trace: SessionTrace)

  /** The try block: an exception leaves `Err` in place of the frame. */
  function Attempt(env: Env, s: Store, raw: bytes, now: u64, canOpen: bool): Served {
    match FrameRequest(raw)
    case Err(what) => Served(s, Err(what), NEW_TRACE)
    case Ok(request) => AttemptRequest(env, s, request, raw, now, canOpen)
  }

  function AttemptRequest(env: Env, s: Store, request: StandardRequest, raw: bytes, now: u64, canOpen: bool): Served {
    var trace := NEW_TRACE.(command := request.command, requestId := Some(request.requestId));
    var handled := Handle(env, s, request, raw, now, canOpen);
    match handled.result
    case Err(what) => Served(handled.store, Err(what), trace)
    case Ok(result) =>
      Served(handled.store, ResponseFrame(result.response), trace.(status := result.response.code, note := result.note))
  }

  /** The catch block. */
  function Refuse(s: Store, raw: bytes, what: string, trace: SessionTrace): Served {
    var result := BadRequestResult(raw, what);
    Served(s, ResponseFrame(result.response), trace.(status := result.response.code, note := what))
  }

  function Serve(env: Env, s: Store, raw: bytes, now: u64, canOpen: bool): Served {
    var attempt := Attempt(env, s, raw, now, canOpen);
    match attempt.sent
    case Ok(_) => attempt
    case Err(what) => Refuse(attempt.store, raw, what, attempt.trace)
  }

  /** The store an exchange leaves is the one the handler leaves, also when the catch block
      answers. */
  lemma {:induction false} ServedStore(env: Env, s: Store, raw: bytes, now: u64, canOpen: bool)
    ensures Serve(env, s, raw, now, canOpen).store
         == if FrameRequest(raw).Ok? && FrameRequest(raw).value.requestId != 0
            then Handle(env, s, FrameRequest(raw).value, raw, now, canOpen).store
            else s
  {
    hide FrameRequest, ResponseFrame;
    if FrameRequest(raw).Ok? && FrameRequest(raw).value.requestId != 0 {
      hide Handle;
    }
  }

  /** What is sent and traced depends on the handler's result and not on the store. */
  lemma {:induction false} ServedResult(env: Env, s: Store, t: Store, raw: bytes, now: u64, canOpen: bool)
    requires FrameRequest(raw).Ok? ==>
               Handle(env, s, FrameRequest(raw).value, raw, now, canOpen).result
               == Handle(env, t, FrameRequest(raw).value, raw, now, canOpen).result
    ensures Serve(env, s, raw, now, canOpen).sent == Serve(env, t, raw, now, canOpen).sent
    ensures Serve(env, s, raw, now, canOpen).trace == Serve(env, t, raw, now, canOpen).trace
  {
    hide Handle, FrameRequest, ResponseFrame;
  }

  class TlsServer {
    const service: AsmService

    constructor (service: AsmService)
      ensures this.service == service
    {
      this.service := service;
    }

    method TryRequest(raw: bytes, now: u64, canOpen: bool) returns (sent: Result<bytes>, trace: SessionTrace)
      modifies service.store.Footprint()
      ensures Served(service.store.View(), sent, trace)
           == Attempt(service.env, old(service.store.View()), raw, now, canOpen)
    {
      trace := NEW_TRACE;
      var packet := Decode(raw);
      if packet.Err? {
        return Err(packet.message), trace;
      }
      var request := DecodeRequest(packet.value);
      if request.Err? {
        return Err(request.message), trace;
      }
      trace := trace.(command := request.value.command);
      trace := trace.(requestId := Some(request.value.requestId));
      var result := service.HandleRequest(request.value, raw, now, canOpen);
      if result.Err? {
        return Err(result.message), trace;
      }
      trace := trace.(status := result.value.response.code);
      trace := trace.(note := result.value.note);
      sent := SendFrame(result.value.response);
    }

    method SendFrame(response: StandardResponse) returns (sent: Result<bytes>)
      ensures sent == ResponseFrame(response)
    {
      var packet :- EncodeResponse(response);
      sent := Encode(packet);
    }

    /** The exchange inside `serve_client`, once the request bytes have been read. */
    method ServeClient(raw: bytes, now: u64, canOpen: bool) returns (sent: Result<bytes>, trace: SessionTrace)
      modifies service.store.Footprint()
      ensures Served(service.store.View(), sent, trace)
           == Serve(service.env, old(service.store.View()), raw, now, canOpen)
    {
      sent, trace := TryRequest(raw, now, canOpen);
      if sent.Err? {
        var result := BadRequestResult(raw, sent.message);
        trace := trace.(status := result.response.code);
        trace := trace.(note := sent.message);
        sent := SendFrame(result.response);
      }
    }
  }

  // ---- When is a request refused? ----

  /** The payload has not the shape its command demands. */
  predicate PayloadRejected(c: Command, p: bytes) {
    match c
    case GetEventList => |p| != 8
    case GetEventId => |p| != 4
    case LeKeyLoad => !BatchShape(p, 32)
    case LeKeyQueryId => |p| != 4
    case LeKeyPurgeId => |p| != 4
    case _ => false
  }

  /** The answer is over the frame limit; only the listings and the XML text can grow. */
  predicate ReplyTooLong(env: Env, s: Store, c: Command, p: bytes) {
    match c
    case GetEventList =>
      && |p| == 8
      && var start, stop := FromBe(p[0..4]), FromBe(p[4..8]);
         start <= stop && start < 0x1_0000_0000 && stop < 0x1_0000_0000
         && 13 + 4 * |Window(env.events, start, stop)| > MAX_LENGTH
    case GetEventId =>
      && |p| == 4
      && FromBe(p[0..4]) < 0x1_0000_0000
      && XmlOf(env.events, FromBe(p[0..4])).Some?
      && 5 + |XmlOf(env.events, FromBe(p[0..4])).value| > MAX_LENGTH
    case LeKeyQueryAll => p == [] && 13 + 4 * |s.keys| > MAX_LENGTH
    case _ => false
  }

  /** The command reaches `persist`, or for a store in memory the point where it would. */
  predicate Persists(s: Store, c: Command, p: bytes) {
    match c
    case LeKeyLoad => ParseLoadRequest(p).Ok? && !WouldOverflow(ParseLoadRequest(p).value, s.keys)
    case LeKeyPurgeId => |p| == 4 && Lookup(s.keys, ReadU32(p, 0).value).Some?
    case LeKeyPurgeAll => p == []
    case _ => false
  }

  predicate PersistFails(s: Store, c: Command, p: bytes, canOpen: bool) {
    s.Jsonl? && !canOpen && Persists(s, c, p)
  }

  /** The records a command leaves in the store, whether or not they can be persisted. */
  function NewKeys(s: Store, c: Command, p: bytes): seq<LeKeyRecord> {
    if !Persists(s, c, p) then s.keys
    else if c == LeKeyLoad then LoadAll(s.keys, ParseLoadRequest(p).value)
    else if c == LeKeyPurgeId then Without(s.keys, ReadU32(p, 0).value)
    else []
  }

  /** The frame names this command as a request. */
  predicate Names(raw: bytes, c: Command) {
    |raw| >= 16 && UlFor(c, false) == Ok(raw[..16])
  }

  /** Everything that makes an exchange end in a BadRequest reply, read off the frame, the
      event log, the store and the state of the disk. */
  predicate Refused(env: Env, s: Store, raw: bytes, canOpen: bool) {
    || !WellFormed(raw)
    || |raw| < 24
    || (forall c: Command :: !Names(raw, c))
    || FromBe(raw[20..24]) == 0
    || (exists c: Command :: Names(raw, c)
          && (PayloadRejected(c, raw[24..]) || ReplyTooLong(env, s, c, raw[24..]) || PersistFails(s, c, raw[24..], canOpen)))
  }

  lemma {:induction false} LoadSteps(s: Store, batch: seq<LeKeyRecord>, canOpen: bool)
    ensures var loaded := Load(s, batch, canOpen);
            && (loaded.result.Err? <==> s.Jsonl? && !canOpen && !WouldOverflow(batch, s.keys))
            && loaded.store.keys == (if WouldOverflow(batch, s.keys) then s.keys else LoadAll(s.keys, batch))
            && (loaded.result == Ok(true) ==> loaded.store == s)
            && (loaded.result.Ok? ==> (loaded.result.value <==> WouldOverflow(batch, s.keys)))
            && (loaded.result.Err? ==> loaded.store == s.(keys := loaded.store.keys))
  {
  }

  lemma {:induction false} PurgeSteps(s: Store, id: u32, canOpen: bool)
    ensures var purged := Purge(s, id, canOpen);
            && (purged.result.Err? <==> s.Jsonl? && !canOpen && Lookup(s.keys, id).Some?)
            && purged.store.keys == (if Lookup(s.keys, id).Some? then Without(s.keys, id) else s.keys)
            && (purged.result.Ok? ==> (purged.result.value <==> Lookup(s.keys, id).Some?))
            && (purged.result.Err? ==> purged.store == s.(keys := purged.store.keys))
  {
    PurgeRemoves(s.keys, id);
  }

  /** What any request with a non-zero id comes to in the handler. */
  predicate HandledAs(env: Env, s: Store, request: StandardRequest, handled: Outcome<ServiceResult>, canOpen: bool) {
    var c, p := request.command, request.payload;
    && handled.store.keys == NewKeys(s, c, p)
    && (handled.result.Err? <==> PayloadRejected(c, p) || PersistFails(s, c, p, canOpen))
    && (handled.result.Err? ==> handled.store == s.(keys := NewKeys(s, c, p)))
    && (handled.result.Ok? ==>
          var response := handled.result.value.response;
          && response.command == c && response.requestId == Some(request.requestId)
          && (5 + |response.payload| > MAX_LENGTH <==> ReplyTooLong(env, s, c, p))
          && (response.code == Successful || handled.store == s)
          && (ReplyTooLong(env, s, c, p) ==> handled.store == s))
  }

  lemma {:induction false} EventListSteps(env: Env, s: Store, request: StandardRequest)
    ensures var handled := HandleGetEventList(env, request);
            && (handled.Err? <==> |request.payload| != 8)
            && (handled.Ok? ==>
                  var response := handled.value.response;
                  && response.command == request.command && response.requestId == Some(request.requestId)
                  && (5 + |response.payload| > MAX_LENGTH <==> ReplyTooLong(env, s, GetEventList, request.payload)))
  {
    hide U32Batch.Encoded, U32Batch.Decoded, Window, XmlOf;
    if |request.payload| == 8 {
      var (start, stop) := ParseListRequest(request.payload).value;
      U32Batch.DecodeEncoded(EventIds(Window(env.events, start, stop)));
    }
  }

  lemma {:induction false} EventListHandled(
    env: Env, s: Store, request: StandardRequest, raw: bytes, now: u64, canOpen: bool)
    requires request.requestId != 0 && request.command == GetEventList
    ensures HandledAs(env, s, request, Handle(env, s, request, raw, now, canOpen), canOpen)
  {
    hide HandleGetEventList, HandleGetEventId, HandleQuerySpb, HandleLoad, HandleQueryId, HandleQueryAll,
         HandlePurgeId, HandlePurgeAll;
    EventListSteps(env, s, request);
  }

  lemma {:induction false} EventIdHandled(env: Env, s: Store, request: StandardRequest, raw: bytes, now: u64, canOpen: bool)
    requires request.requestId != 0 && request.command == GetEventId
    ensures HandledAs(env, s, request, Handle(env, s, request, raw, now, canOpen), canOpen)
  {
    hide HandleGetEventList, HandleQuerySpb, HandleLoad, HandleQueryId, HandleQueryAll, HandlePurgeId,
         HandlePurgeAll;
  }

  lemma {:induction false} LoadHandled(env: Env, s: Store, request: StandardRequest, raw: bytes, now: u64, canOpen: bool)
    requires request.requestId != 0 && request.command == LeKeyLoad
    ensures HandledAs(env, s, request, Handle(env, s, request, raw, now, canOpen), canOpen)
  {
    LoadRequestAccepted(request.payload);
    if ParseLoadRequest(request.payload).Ok? {
      LoadSteps(s, ParseLoadRequest(request.payload).value, canOpen);
    }
  }

  lemma {:induction false} QueryAllHandled(env: Env, s: Store, request: StandardRequest, raw: bytes, now: u64, canOpen: bool)
    requires request.requestId != 0 && request.command == LeKeyQueryAll
    ensures HandledAs(env, s, request, Handle(env, s, request, raw, now, canOpen), canOpen)
  {
    hide HandleGetEventList, HandleGetEventId, HandleQuerySpb, HandleLoad, HandleQueryId, HandlePurgeId,
         HandlePurgeAll, U32Batch.Decoded;
    U32Batch.DecodeEncoded(Ids(s.keys));
  }

  lemma {:induction false} PurgeIdHandled(env: Env, s: Store, request: StandardRequest, raw: bytes, now: u64, canOpen: bool)
    requires request.requestId != 0 && request.command == LeKeyPurgeId
    ensures HandledAs(env, s, request, Handle(env, s, request, raw, now, canOpen), canOpen)
  {
    hide HandleGetEventList, HandleGetEventId, HandleQuerySpb, HandleLoad, HandleQueryId, HandleQueryAll,
         HandlePurgeAll, Purge, Without, Lookup;
    if |request.payload| == 4 {
      PurgeSteps(s, ReadU32(request.payload, 0).value, canOpen);
    }
  }

  lemma {:induction false} PurgeAllHandled(env: Env, s: Store, request: StandardRequest, raw: bytes, now: u64, canOpen: bool)
    requires request.requestId != 0 && request.command == LeKeyPurgeAll
    ensures HandledAs(env, s, request, Handle(env, s, request, raw, now, canOpen), canOpen)
  {
    hide HandleGetEventList, HandleGetEventId, HandleQuerySpb, HandleLoad, HandleQueryId, HandleQueryAll,
         HandlePurgeId, HandlePurgeAll;
    PurgeAllSteps(s, request, canOpen);
  }

  lemma {:induction false} PurgeAllSteps(s: Store, request: StandardRequest, canOpen: bool)
    ensures var handled := HandlePurgeAll(s, request, canOpen);
            && handled.store.keys == (if request.payload == [] then [] else s.keys)
            && (handled.result.Err? <==> s.Jsonl? && !canOpen && request.payload == [])
            && (handled.result.Err? ==> handled.store == s.(keys := []))
            && (handled.result.Ok? ==>
                  var response := handled.result.value.response;
                  && response.command == request.command && response.requestId == Some(request.requestId)
                  && response.payload == [] && (response.code == Successful || handled.store == s))
  {
  }

  lemma {:induction false} QueryIdHandled(env: Env, s: Store, request: StandardRequest, raw: bytes, now: u64, canOpen: bool)
    requires request.requestId != 0 && request.command == LeKeyQueryId
    ensures HandledAs(env, s, request, Handle(env, s, request, raw, now, canOpen), canOpen)
  {
  }

  lemma {:induction false} StatusHandled(env: Env, s: Store, request: StandardRequest, raw: bytes, now: u64, canOpen: bool)
    requires request.requestId != 0 && (request.command == GetTime || request.command == QuerySpb)
    ensures HandledAs(env, s, request, Handle(env, s, request, raw, now, canOpen), canOpen)
  {
  }

  lemma {:induction false} EveryRequestHandled(
    env: Env, s: Store, request: StandardRequest, raw: bytes, now: u64, canOpen: bool)
    requires request.requestId != 0 && request.command != BadRequest
    ensures HandledAs(env, s, request, Handle(env, s, request, raw, now, canOpen), canOpen)
  {
    match request.command
    case GetEventList => EventListHandled(env, s, request, raw, now, canOpen);
    case GetEventId => EventIdHandled(env, s, request, raw, now, canOpen);
    case LeKeyLoad => LoadHandled(env, s, request, raw, now, canOpen);
    case LeKeyQueryAll => QueryAllHandled(env, s, request, raw, now, canOpen);
    case LeKeyPurgeId => PurgeIdHandled(env, s, request, raw, now, canOpen);
    case LeKeyPurgeAll => PurgeAllHandled(env, s, request, raw, now, canOpen);
    case LeKeyQueryId => QueryIdHandled(env, s, request, raw, now, canOpen);
    case _ => StatusHandled(env, s, request, raw, now, canOpen);
  }

  /** The request a frame holds, and the refusal condition in its terms. */
  lemma {:induction false} RefusedByRequest(env: Env, s: Store, raw: bytes, canOpen: bool)
    ensures FrameRequest(raw).Err? ==> Refused(env, s, raw, canOpen)
    ensures FrameRequest(raw).Ok? ==>
            var request := FrameRequest(raw).value;
            && request.command != BadRequest
            && (Refused(env, s, raw, canOpen) <==>
                || request.requestId == 0
                || PayloadRejected(request.command, request.payload)
                || ReplyTooLong(env, s, request.command, request.payload)
                || PersistFails(s, request.command, request.payload, canOpen))
  {
    RequestAccepted(raw);
    if FrameRequest(raw).Ok? {
      var c := FrameRequest(raw).value.command;
      assert Names(raw, c);
      LabelsIdentifyCommands(c, false);
      forall d: Command | Names(raw, d)
        ensures d == c
      {
        LabelsIdentifyCommands(d, false);
      }
    } else if WellFormed(raw) && |raw| >= 24 {
      assert forall c: Command :: Names(raw, c) <==> UlFor(c, false) == Ok(raw[..16]);
    }
  }

  // ---- Main results on one exchange ----

  lemma {:induction false} RefusalSent(s: Store, raw: bytes, what: string, trace: SessionTrace)
    requires |raw| < MAX_LENGTH
    ensures var served := Refuse(s, raw, what, trace);
            && served.store == s && served.trace.status == Invalid
            && served.sent.Ok? && FrameResponse(served.sent.value) == Ok(StandardResponse(BadRequest, None, raw, Invalid))
  {
    ResponseRoundTrip(StandardResponse(BadRequest, None, raw, Invalid));
  }

  /** One exchange in full. The reply is BadRequest, with the request copied and code invalid
      (section 7.1), exactly when the request is refused; any other reply carries the command
      and id of the request (section 6.3) and what the handler answered. */
  lemma {:induction false} Exchange(env: Env, s: Store, raw: bytes, now: u64, canOpen: bool)
    requires |raw| < MAX_LENGTH
    ensures var served := Serve(env, s, raw, now, canOpen);
            && served.sent.Ok? && FrameResponse(served.sent.value).Ok?
            && var reply := FrameResponse(served.sent.value).value;
               && served.trace.status == reply.code
               && served.trace.command == (if FrameRequest(raw).Ok? then FrameRequest(raw).value.command else BadRequest)
               && served.trace.requestId == (if FrameRequest(raw).Ok? then Some(FrameRequest(raw).value.requestId) else None)
               && (reply.command == BadRequest <==> Refused(env, s, raw, canOpen))
               && (reply.command == BadRequest ==> reply == StandardResponse(BadRequest, None, raw, Invalid))
               && (reply.command != BadRequest ==>
                     && FrameRequest(raw).Ok?
                     && var request := FrameRequest(raw).value;
                        var handled := Handle(env, s, request, raw, now, canOpen);
                        && request.requestId != 0
                        && reply.command == request.command && reply.requestId == Some(request.requestId)
                        && handled.result.Ok? && handled.result.value.response == reply
                        && handled.result.value.note == served.trace.note
                        && handled.store == served.store
                        && |served.sent.value| == 25 + |reply.payload|)
  {
    hide Refused, PayloadRejected, ReplyTooLong, PersistFails, HandleGetEventList, HandleGetEventId,
         HandleQuerySpb, HandleLoad, HandleQueryId, HandleQueryAll, HandlePurgeId, HandlePurgeAll;
    RefusedByRequest(env, s, raw, canOpen);
    match FrameRequest(raw)
    case Err(what) => RefusalSent(s, raw, what, NEW_TRACE);
    case Ok(request) =>
      var trace := NEW_TRACE.(command := request.command, requestId := Some(request.requestId));
      var handled := Handle(env, s, request, raw, now, canOpen);
      if request.requestId == 0 {
        ResponseRoundTrip(BadRequestResult(raw, "request id must be non-zero").response);
      } else {
        EveryRequestHandled(env, s, request, raw, now, canOpen);
        match handled.result
        case Err(what) => RefusalSent(handled.store, raw, what, trace);
        case Ok(result) =>
          ResponseRoundTrip(result.response);
          if ResponseFrame(result.response).Err? {
            RefusalSent(handled.store, raw, ResponseFrame(result.response).message,
                        trace.(status := result.response.code, note := result.note));
          }
      }
  }

  /** Whatever the read buffer of 4096 bytes can deliver is answered. */
  lemma {:induction false} EveryReadIsAnswered(env: Env, s: Store, raw: bytes, now: u64, canOpen: bool)
    requires |raw| <= 4096
    ensures var served := Serve(env, s, raw, now, canOpen);
            served.sent.Ok? && FrameResponse(served.sent.value).Ok?
  {
    Exchange(env, s, raw, now, canOpen);
  }

  /** The reply a client decodes. */
  function ReplyTo(env: Env, s: Store, raw: bytes, now: u64, canOpen: bool): StandardResponse
    requires |raw| < MAX_LENGTH
  {
    Exchange(env, s, raw, now, canOpen);
    FrameResponse(Serve(env, s, raw, now, canOpen).sent.value).value
  }

  /** A command that reaches the write has something to write: some record of the batch is not
      stored as such yet, or there is a key to purge. (A purge by id that reaches the write
      always has.) */
  predicate HasSomethingToWrite(s: Store, c: Command, p: bytes) {
    match c
    case LeKeyLoad =>
      && ParseLoadRequest(p).Ok?
      && var batch := ParseLoadRequest(p).value;
         exists i :: 0 <= i < |batch| && Lookup(s.keys, batch[i].keyId) != LastIn(batch, batch[i].keyId)
    case LeKeyPurgeAll => s.keys != []
    case _ => true
  }

  lemma {:induction false} ChangesKeysIff(s: Store, c: Command, p: bytes)
    requires Persists(s, c, p)
    ensures NewKeys(s, c, p) != s.keys <==> HasSomethingToWrite(s, c, p)
  {
    if c == LeKeyLoad {
      LoadChangesNothingIff(s.keys, ParseLoadRequest(p).value);
    } else if c == LeKeyPurgeId {
      PurgeRemoves(s.keys, ReadU32(p, 0).value);
    }
  }

  /** The exchange has records to write out and cannot open the file for them. */
  predicate LosesPersist(s: Store, raw: bytes, canOpen: bool) {
    && FrameRequest(raw).Ok?
    && var request := FrameRequest(raw).value;
       && request.requestId != 0
       && PersistFails(s, request.command, request.payload, canOpen)
       && HasSomethingToWrite(s, request.command, request.payload)
  }

  lemma {:induction false} RefusalKeepsStore(env: Env, s: Store, raw: bytes, now: u64, canOpen: bool)
    requires |raw| < MAX_LENGTH && ReplyTo(env, s, raw, now, canOpen).command == BadRequest
    ensures Serve(env, s, raw, now, canOpen).store == s <==> !LosesPersist(s, raw, canOpen)
  {
    hide FrameRequest, FrameResponse, Refused;
    Exchange(env, s, raw, now, canOpen);
    RefusedByRequest(env, s, raw, canOpen);
    if FrameRequest(raw).Ok? && FrameRequest(raw).value.requestId != 0 {
      var request := FrameRequest(raw).value;
      EveryRequestHandled(env, s, request, raw, now, canOpen);
      if Persists(s, request.command, request.payload) {
        ChangesKeysIff(s, request.command, request.payload);
      }
    }
  }

  /** A reply that is not `successful` leaves the store untouched, file included, if and only
      if the exchange is not one that has records to write and finds the file closed to it. */
  lemma {:induction false} FailureAtomicIff(env: Env, s: Store, raw: bytes, now: u64, canOpen: bool)
    requires |raw| < MAX_LENGTH
    ensures (ReplyTo(env, s, raw, now, canOpen).code != Successful ==> Serve(env, s, raw, now, canOpen).store == s)
       <==> !LosesPersist(s, raw, canOpen)
  {
    Exchange(env, s, raw, now, canOpen);
    RefusedByRequest(env, s, raw, canOpen);
    if ReplyTo(env, s, raw, now, canOpen).command == BadRequest {
      RefusalKeepsStore(env, s, raw, now, canOpen);
    } else {
      EveryRequestHandled(env, s, FrameRequest(raw).value, raw, now, canOpen);
    }
  }

  /** The failing case exists: asking any non-empty file-backed store to purge all keys while
      its file cannot be opened is answered BadRequest and yet empties the store, whose file
      is left as it was. */
  lemma {:induction false} FailureNotAtomic(env: Env, s: Store, requestId: u32, raw: bytes, now: u64)
    requires s.Jsonl? && s.keys != [] && requestId != 0
    requires RequestFrame(StandardRequest(LeKeyPurgeAll, requestId, [])) == Ok(raw)
    ensures |raw| <= 4096
    ensures ReplyTo(env, s, raw, now, false).command == BadRequest
    ensures Serve(env, s, raw, now, false).store == Jsonl([], s.file) != s
  {
    hide FrameRequest, FrameResponse, RequestFrame, Refused, HandleGetEventList, HandleGetEventId,
         HandleQuerySpb, HandleLoad, HandleQueryId, HandleQueryAll, HandlePurgeId;
    var request := StandardRequest(LeKeyPurgeAll, requestId, []);
    RequestRoundTrip(request);
    FrameSize(request);
    Exchange(env, s, raw, now, false);
    RefusedByRequest(env, s, raw, false);
  }

  predicate IsKeyCommand(c: Command) {
    c == LeKeyLoad || c == LeKeyQueryId || c == LeKeyQueryAll || c == LeKeyPurgeId || c == LeKeyPurgeAll
  }

  lemma {:induction false} QueryAllPayloadIsShort(s: Store, request: StandardRequest)
    requires |s.keys| <= 16
    ensures |HandleQueryAll(s, request).response.payload| <= 72
  {
    U32Batch.DecodeEncoded(Ids(s.keys));
  }

  lemma {:induction false} LoadPayloadIsShort(s: Store, request: StandardRequest, canOpen: bool)
    ensures HandleLoad(s, request, canOpen).result.Ok? ==>
              |HandleLoad(s, request, canOpen).result.value.response.payload| == 1
  {
  }

  lemma {:induction false} PurgePayloadIsShort(s: Store, request: StandardRequest, canOpen: bool)
    ensures HandlePurgeId(s, request, canOpen).result.Ok? ==>
              |HandlePurgeId(s, request, canOpen).result.value.response.payload| == 1
  {
  }

  lemma {:induction false} QueryIdPayloadIsShort(s: Store, request: StandardRequest)
    ensures HandleQueryId(s, request).Ok? ==> |HandleQueryId(s, request).value.response.payload| == 1
  {
  }

  lemma {:induction false} PurgeAllPayloadIsShort(s: Store, request: StandardRequest, canOpen: bool)
    ensures HandlePurgeAll(s, request, canOpen).result.Ok? ==>
              HandlePurgeAll(s, request, canOpen).result.value.response.payload == []
  {
  }

  lemma {:induction false} KeyPayloadIsShort(
    env: Env, s: Store, request: StandardRequest, raw: bytes, now: u64, canOpen: bool)
    requires |s.keys| <= 16 && request.requestId != 0 && IsKeyCommand(request.command)
    ensures var handled := Handle(env, s, request, raw, now, canOpen);
            handled.result.Ok? ==> |handled.result.value.response.payload| <= 72
  {
    hide HandleLoad, HandleQueryId, HandleQueryAll, HandlePurgeId, HandlePurgeAll;
    match request.command
    case LeKeyLoad => LoadPayloadIsShort(s, request, canOpen);
    case LeKeyQueryId => QueryIdPayloadIsShort(s, request);
    case LeKeyQueryAll => QueryAllPayloadIsShort(s, request);
    case LeKeyPurgeId => PurgePayloadIsShort(s, request, canOpen);
    case LeKeyPurgeAll => PurgeAllPayloadIsShort(s, request, canOpen);
  }

  /** With at most 16 keys stored, no answer to a key command is longer than 97 bytes. */
  lemma {:induction false} KeyRepliesAreShort(env: Env, s: Store, raw: bytes, now: u64, canOpen: bool)
    requires |raw| < MAX_LENGTH && |s.keys| <= 16
    ensures Serve(env, s, raw, now, canOpen).sent.Ok?
    ensures IsKeyCommand(ReplyTo(env, s, raw, now, canOpen).command) ==> |Serve(env, s, raw, now, canOpen).sent.value| <= 97
  {
    Exchange(env, s, raw, now, canOpen);
    if IsKeyCommand(ReplyTo(env, s, raw, now, canOpen).command) {
      KeyPayloadIsShort(env, s, FrameRequest(raw).value, raw, now, canOpen);
    }
  }

  /** The client that asks for all keys decodes exactly the stored ids, if they fit a frame;
      otherwise it is answered BadRequest. */
  lemma {:induction false} QueryAllReportsIds(env: Env, s: Store, requestId: u32, now: u64, canOpen: bool)
    returns (raw: bytes)
    requires requestId != 0
    ensures RequestFrame(StandardRequest(LeKeyQueryAll, requestId, [])) == Ok(raw) && |raw| < MAX_LENGTH
    ensures var reply := ReplyTo(env, s, raw, now, canOpen);
            if 13 + 4 * |s.keys| <= 0xff_ffff
            then reply.code == Successful && U32Batch.Decoded(reply.payload) == Ok(Ids(s.keys))
            else reply.command == BadRequest
  {
    hide FrameRequest, FrameResponse, RequestFrame, Refused, HandleGetEventList, HandleGetEventId,
         HandleQuerySpb, HandleLoad, HandleQueryId, HandlePurgeId, HandlePurgeAll;
    var request := StandardRequest(LeKeyQueryAll, requestId, []);
    RequestRoundTrip(request);
    raw := RequestFrame(request).value;
    FrameSize(request);
    Exchange(env, s, raw, now, canOpen);
    RefusedByRequest(env, s, raw, canOpen);
    U32Batch.DecodeEncoded(Ids(s.keys));
  }

  lemma {:induction false} FrameSize(request: StandardRequest)
    requires RequestFrame(request).Ok?
    ensures |RequestFrame(request).value| == 24 + |request.payload|
  {
    LabelsIdentifyCommands(request.command, false);
  }
}
