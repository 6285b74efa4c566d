/** What the client may conclude from an answer that is not a BadRequest. Each predicate
    relates the store before and after the exchange, the request payload and the reply. */
module Answers {
  import opened Prelude
  import opened BigEndian
  import opened Codec
  import opened Batch
  import opened KeyRecords
  import opened KeyList
  import opened KeyStores
  import opened EventLog
  import opened Service
  import opened Server
  import Klv
  import U32Batch

  /** An exchange answered by the command asked for was handled, and the reply is the handler's. */
  lemma {:induction false} AnswerOf(env: Env, s: Store, raw: bytes, now: u64, canOpen: bool)
    requires |raw| < Klv.MAX_LENGTH
    ensures var reply := ReplyTo(env, s, raw, now, canOpen);
            reply.command != BadRequest ==>
              && FrameRequest(raw).Ok? && FrameRequest(raw).value.requestId != 0
              && FrameRequest(raw).value.command == reply.command
              && var handled := Handle(env, s, FrameRequest(raw).value, raw, now, canOpen);
                 && handled.result.Ok? && handled.result.value.response == reply
                 && handled.store == Serve(env, s, raw, now, canOpen).store
  {
    Exchange(env, s, raw, now, canOpen);
  }

  /** GetTime tells the time of day whatever payload came with it. */
  lemma {:induction false} TimeAnswered(env: Env, s: Store, raw: bytes, now: u64, canOpen: bool)
    requires |raw| < Klv.MAX_LENGTH && FrameRequest(raw).Ok?
    requires FrameRequest(raw).value.command == GetTime && FrameRequest(raw).value.requestId != 0
    ensures var reply := ReplyTo(env, s, raw, now, canOpen);
            && reply.command == GetTime && reply.code == Successful
            && |reply.payload| == 8 && ReadU64(reply.payload, 0) == Ok(now)
  {
    Exchange(env, s, raw, now, canOpen);
    RefusedByRequest(env, s, raw, canOpen);
    ReadBackU64([], now, []);
    assert ToBe(now, 8) == [] + ToBe(now, 8) + [];
  }

  /** What a client makes of a QuerySPB payload: protocol version and status byte. */
  function ParseStatus(b: bytes): Result<(byte, byte)> {
    if |b| != 2 then Err("QuerySPB response payload must be 2 bytes") else Ok((b[0], b[1]))
  }

  /** QuerySPB reports version 1 and the status of the service, unless a payload came with the
      request. */
  predicate StatusTold(status: QuerySpbStatus, p: bytes, reply: StandardResponse) {
    if |p| != 0 then reply.code == Invalid && reply.payload == []
    else
      && reply.code == Successful && |reply.payload| == 2
      && ParseStatus(reply.payload) == Ok((reply.payload[0], reply.payload[1]))
      && reply.payload == match status
                          case NotPlaying => [1, 0]
                          case Playing => [1, 1]
                          case SecurityAlert => [1, 2]
  }

  lemma {:induction false} StatusHandledTold(env: Env, request: StandardRequest)
    ensures StatusTold(env.status, request.payload, HandleQuerySpb(env, request).response)
  {
  }

  lemma {:induction false} StatusAnswered(env: Env, s: Store, raw: bytes, now: u64, canOpen: bool)
    requires |raw| < Klv.MAX_LENGTH && FrameRequest(raw).Ok?
    requires FrameRequest(raw).value.command == QuerySpb && FrameRequest(raw).value.requestId != 0
    ensures ReplyTo(env, s, raw, now, canOpen).command == QuerySpb
    ensures StatusTold(env.status, FrameRequest(raw).value.payload, ReplyTo(env, s, raw, now, canOpen))
  {
    hide Serve, FrameRequest, FrameResponse, Refused, StatusTold, HandleGetEventList, HandleGetEventId,
         HandleQuerySpb, HandleLoad, HandleQueryId, HandleQueryAll, HandlePurgeId, HandlePurgeAll;
    Exchange(env, s, raw, now, canOpen);
    RefusedByRequest(env, s, raw, canOpen);
    StatusHandledTold(env, FrameRequest(raw).value);
  }

  /** LEKeyLoad: the overflow flag and `failed` go together (section 8.1), exactly when the keys
      stored and the batch entries for other ids are more than 16. For a batch that repeats no
      id these are its new ids, and for a store that repeats none either the union of the ids.
      Otherwise the loaded ids are stored with their last records, the new ones behind the old,
      and no other id is touched. */
  ghost predicate LoadTold(s: Store, after: Store, p: bytes, reply: StandardResponse) {
    && ParseLoadRequest(p).Ok?
    && var batch := ParseLoadRequest(p).value;
       && (reply.code == Failed <==> reply.payload == [1])
       && (reply.code == Successful <==> reply.payload == [0])
       && (reply.code == Failed || reply.code == Successful)
       && (reply.code == Failed <==> |s.keys| + |NewPlaces(batch, s.keys)| > 16)
       && (Distinct(batch) ==>
             (reply.code == Failed <==> |s.keys| + |IdSet(batch) - IdSet(s.keys)| > 16))
       && (Distinct(batch) && Distinct(s.keys) ==>
             (reply.code == Failed <==> |IdSet(s.keys) + IdSet(batch)| > 16))
       && (reply.code == Failed ==> after == s)
       && (reply.code == Successful ==> Merged(s.keys, after.keys, batch))
  }

  /** The records after an accepted load: as a set of ids, as a list, and as a map. */
  ghost predicate Merged(before: seq<LeKeyRecord>, after: seq<LeKeyRecord>, batch: seq<LeKeyRecord>) {
    && IdSet(after) == IdSet(before) + IdSet(batch)
    && LoadedInOrder(before, after, batch)
    && forall id: u32 :: Lookup(after, id) == if LastIn(batch, id).Some? then LastIn(batch, id) else Lookup(before, id)
  }

  lemma {:induction false} LoadMerges(keys: seq<LeKeyRecord>, batch: seq<LeKeyRecord>)
    ensures Merged(keys, LoadAll(keys, batch), batch)
  {
    hide LoadAll, LoadedInOrder, Lookup, LastIn, IdSet;
    LoadKeepsOrder(keys, batch);
    LoadedIds(keys, batch);
    forall id: u32
      ensures Lookup(LoadAll(keys, batch), id) == if LastIn(batch, id).Some? then LastIn(batch, id) else Lookup(keys, id)
    {
      LoadUpdatesMap(keys, batch, id);
    }
  }

  lemma {:induction false} LoadReplied(s: Store, request: StandardRequest, canOpen: bool)
    requires HandleLoad(s, request, canOpen).result.Ok?
    ensures ParseLoadRequest(request.payload).Ok?
    ensures var handled, batch := HandleLoad(s, request, canOpen), ParseLoadRequest(request.payload).value;
            var reply := handled.result.value.response;
            if WouldOverflow(batch, s.keys) then reply.code == Failed && reply.payload == [1] && handled.store == s
            else reply.code == Successful && reply.payload == [0] && handled.store.keys == LoadAll(s.keys, batch)
  {
    hide Load, ParseLoadRequest, LoadAll, WouldOverflow;
    LoadSteps(s, ParseLoadRequest(request.payload).value, canOpen);
  }

  lemma {:induction false} DistinctOverflow(keys: seq<LeKeyRecord>, batch: seq<LeKeyRecord>)
    requires Distinct(batch)
    ensures WouldOverflow(batch, keys) <==> |keys| + |IdSet(batch) - IdSet(keys)| > 16
    ensures Distinct(keys) ==> (WouldOverflow(batch, keys) <==> |IdSet(keys) + IdSet(batch)| > 16)
  {
    CountedIsAdded(batch, keys);
    AddedSize(batch, keys);
    if Distinct(keys) {
      UnionSize(keys, batch);
    }
  }

  lemma {:induction false} LoadHandledTold(s: Store, request: StandardRequest, canOpen: bool)
    requires HandleLoad(s, request, canOpen).result.Ok?
    ensures var handled := HandleLoad(s, request, canOpen);
            LoadTold(s, handled.store, request.payload, handled.result.value.response)
  {
    hide HandleLoad, Merged, LoadAll, WouldOverflow, NewPlaces, IdSet, Distinct;
    LoadReplied(s, request, canOpen);
    var batch := ParseLoadRequest(request.payload).value;
    hide ParseLoadRequest;
    OverflowIff(s.keys, batch);
    LoadMerges(s.keys, batch);
    if Distinct(batch) {
      DistinctOverflow(s.keys, batch);
    }
  }

  lemma {:induction false} LoadAnswered(env: Env, s: Store, raw: bytes, now: u64, canOpen: bool)
    requires |raw| < Klv.MAX_LENGTH
    ensures var reply := ReplyTo(env, s, raw, now, canOpen);
            reply.command == LeKeyLoad ==>
              FrameRequest(raw).Ok?
              && LoadTold(s, Serve(env, s, raw, now, canOpen).store, FrameRequest(raw).value.payload, reply)
  {
    hide Serve, FrameRequest, FrameResponse, Refused, LoadTold, HandleGetEventList, HandleGetEventId,
         HandleQuerySpb, HandleLoad, HandleQueryId, HandleQueryAll, HandlePurgeId, HandlePurgeAll;
    AnswerOf(env, s, raw, now, canOpen);
    if ReplyTo(env, s, raw, now, canOpen).command == LeKeyLoad {
      LoadHandledTold(s, FrameRequest(raw).value, canOpen);
    }
  }

  /** LEKeyPurgeID always answers `successful`; its flag is 1 exactly when the id was not
      stored, and afterwards the id is gone, no other id is touched, and what is left stands in
      the order it had. */
  ghost predicate PurgeTold(s: Store, after: Store, p: bytes, reply: StandardResponse) {
    && |p| == 4
    && var id := ReadU32(p, 0).value;
       && reply.code == Successful && reply.payload == (if id in Ids(s.keys) then [0] else [1])
       && PurgedInOrder(s.keys, after.keys, id)
       && forall other: u32 :: Lookup(after.keys, other) == if other == id then None else Lookup(s.keys, other)
  }

  lemma {:induction false} PurgeReplied(s: Store, request: StandardRequest, canOpen: bool)
    requires HandlePurgeId(s, request, canOpen).result.Ok?
    ensures |request.payload| == 4
    ensures var handled, id := HandlePurgeId(s, request, canOpen), ReadU32(request.payload, 0).value;
            var reply := handled.result.value.response;
            && handled.store.keys == Without(s.keys, id) && reply.code == Successful
            && reply.payload == if Lookup(s.keys, id).Some? then [0] else [1]
  {
    hide Purge, Without, Lookup, ReadU32;
    var id := ReadU32(request.payload, 0).value;
    PurgeSteps(s, id, canOpen);
    PurgeRemoves(s.keys, id);
  }

  lemma {:induction false} StoredIff(keys: seq<LeKeyRecord>, id: u32)
    ensures id in Ids(keys) <==> Lookup(keys, id).Some?
  {
    if id in Ids(keys) {
      Found(keys, id);
    } else {
      NotFound(keys, id);
    }
  }

  lemma {:induction false} PurgeHandledTold(s: Store, request: StandardRequest, canOpen: bool)
    requires HandlePurgeId(s, request, canOpen).result.Ok?
    ensures var handled := HandlePurgeId(s, request, canOpen);
            PurgeTold(s, handled.store, request.payload, handled.result.value.response)
  {
    hide HandlePurgeId, PurgedInOrder, Without, Lookup, Ids, ReadU32;
    PurgeReplied(s, request, canOpen);
    var id := ReadU32(request.payload, 0).value;
    PurgeKeepsOrder(s.keys, id);
    StoredIff(s.keys, id);
    forall other: u32
      ensures Lookup(Without(s.keys, id), other) == if other == id then None else Lookup(s.keys, other)
    {
      PurgeUpdatesMap(s.keys, id, other);
    }
  }

  lemma {:induction false} PurgeAnswered(env: Env, s: Store, raw: bytes, now: u64, canOpen: bool)
    requires |raw| < Klv.MAX_LENGTH
    ensures var reply := ReplyTo(env, s, raw, now, canOpen);
            reply.command == LeKeyPurgeId ==>
              FrameRequest(raw).Ok?
              && PurgeTold(s, Serve(env, s, raw, now, canOpen).store, FrameRequest(raw).value.payload, reply)
  {
    hide Serve, FrameRequest, FrameResponse, Refused, PurgeTold, HandleGetEventList, HandleGetEventId,
         HandleQuerySpb, HandleLoad, HandleQueryId, HandleQueryAll, HandlePurgeId, HandlePurgeAll;
    AnswerOf(env, s, raw, now, canOpen);
    if ReplyTo(env, s, raw, now, canOpen).command == LeKeyPurgeId {
      PurgeHandledTold(s, FrameRequest(raw).value, canOpen);
    }
  }

  /** LEKeyPurgeAll refuses a payload with `invalid` and without effect, and otherwise leaves
      the store empty. */
  predicate PurgeAllTold(s: Store, after: Store, p: bytes, reply: StandardResponse) {
    && reply.payload == []
    && (if |p| == 0 then reply.code == Successful && after.keys == [] else reply.code == Invalid && after == s)
  }

  lemma {:induction false} PurgeAllHandledTold(s: Store, request: StandardRequest, canOpen: bool)
    requires HandlePurgeAll(s, request, canOpen).result.Ok?
    ensures var handled := HandlePurgeAll(s, request, canOpen);
            PurgeAllTold(s, handled.store, request.payload, handled.result.value.response)
  {
  }

  lemma {:induction false} PurgeAllAnswered(env: Env, s: Store, raw: bytes, now: u64, canOpen: bool)
    requires |raw| < Klv.MAX_LENGTH
    ensures var reply := ReplyTo(env, s, raw, now, canOpen);
            reply.command == LeKeyPurgeAll ==>
              FrameRequest(raw).Ok?
              && PurgeAllTold(s, Serve(env, s, raw, now, canOpen).store, FrameRequest(raw).value.payload, reply)
  {
    hide Serve, FrameRequest, FrameResponse, Refused, PurgeAllTold, HandleGetEventList, HandleGetEventId,
         HandleQuerySpb, HandleLoad, HandleQueryId, HandleQueryAll, HandlePurgeId, HandlePurgeAll;
    AnswerOf(env, s, raw, now, canOpen);
    if ReplyTo(env, s, raw, now, canOpen).command == LeKeyPurgeAll {
      PurgeAllHandledTold(s, FrameRequest(raw).value, canOpen);
    }
  }

  /** LEKeyQueryAll refuses a payload with `invalid`; otherwise the client decodes the stored
      ids. Either way the store is left alone. */
  predicate QueryAllTold(s: Store, after: Store, p: bytes, reply: StandardResponse) {
    && after == s
    && (if |p| != 0 then reply.code == Invalid && reply.payload == []
        else reply.code == Successful && U32Batch.Decoded(reply.payload) == Ok(Ids(s.keys)))
  }

  lemma {:induction false} QueryAllHandledTold(s: Store, request: StandardRequest)
    requires 5 + |HandleQueryAll(s, request).response.payload| <= Klv.MAX_LENGTH
    ensures QueryAllTold(s, s, request.payload, HandleQueryAll(s, request).response)
  {
    U32Batch.DecodeEncoded(Ids(s.keys));
  }

  lemma {:induction false} QueryAllAnswered(env: Env, s: Store, raw: bytes, now: u64, canOpen: bool)
    requires |raw| < Klv.MAX_LENGTH
    ensures var reply := ReplyTo(env, s, raw, now, canOpen);
            reply.command == LeKeyQueryAll ==>
              FrameRequest(raw).Ok?
              && QueryAllTold(s, Serve(env, s, raw, now, canOpen).store, FrameRequest(raw).value.payload, reply)
  {
    hide Serve, FrameRequest, FrameResponse, Refused, QueryAllTold, HandleGetEventList, HandleGetEventId,
         HandleQuerySpb, HandleLoad, HandleQueryId, HandleQueryAll, HandlePurgeId, HandlePurgeAll;
    AnswerOf(env, s, raw, now, canOpen);
    if ReplyTo(env, s, raw, now, canOpen).command == LeKeyQueryAll {
      RefusedByRequest(env, s, raw, canOpen);
      EveryRequestHandled(env, s, FrameRequest(raw).value, raw, now, canOpen);
      Exchange(env, s, raw, now, canOpen);
      QueryAllHandledTold(s, FrameRequest(raw).value);
    }
  }

  // ---- Payloads of an illegal length ----

  /** The payload has the length sections 7 and 8 give the request of a command; for LEKeyLoad
      the length its own batch header announces. */
  predicate LegalLength(c: Command, p: bytes) {
    match c
    case GetEventList => |p| == 8
    case GetEventId => |p| == 4
    case LeKeyLoad => BatchShape(p, 32)
    case LeKeyQueryId => |p| == 4
    case LeKeyPurgeId => |p| == 4
    case _ => |p| == 0
  }

  /** The commands whose requests carry nothing but the request id. */
  predicate HasNoPayload(c: Command) {
    c == GetTime || c == QuerySpb || c == LeKeyQueryAll || c == LeKeyPurgeAll
  }

  lemma {:induction false} IllegalLengthHandled(
    env: Env, s: Store, request: StandardRequest, raw: bytes, now: u64, canOpen: bool)
    requires request.requestId != 0 && request.command != BadRequest && !LegalLength(request.command, request.payload)
    ensures PayloadRejected(request.command, request.payload) <==> !HasNoPayload(request.command)
    ensures !Persists(s, request.command, request.payload)
    ensures !ReplyTooLong(env, s, request.command, request.payload)
    ensures HasNoPayload(request.command) ==>
              var handled := Handle(env, s, request, raw, now, canOpen);
              handled.store == s && handled.result.Ok?
              && handled.result.value.response.code == if request.command == GetTime then Successful else Invalid
  {
    hide HandleGetEventList, HandleGetEventId, HandleLoad, HandleQueryId, HandlePurgeId, PurgeAll;
    if request.command == LeKeyLoad {
      LoadRequestAccepted(request.payload);
    }
  }

  /** A payload of an illegal length is answered BadRequest if and only if its command has a
      payload at all. GetTime is answered as usual, the other three with their own command and
      code `invalid`; the store is never touched. */
  lemma {:induction false} IllegalLengthAnswered(env: Env, s: Store, raw: bytes, now: u64, canOpen: bool)
    requires |raw| < Klv.MAX_LENGTH && FrameRequest(raw).Ok? && FrameRequest(raw).value.requestId != 0
    requires !LegalLength(FrameRequest(raw).value.command, FrameRequest(raw).value.payload)
    ensures var c, reply := FrameRequest(raw).value.command, ReplyTo(env, s, raw, now, canOpen);
            && (reply.command == BadRequest <==> !HasNoPayload(c))
            && (HasNoPayload(c) ==> reply.command == c && reply.code == if c == GetTime then Successful else Invalid)
            && Serve(env, s, raw, now, canOpen).store == s
  {
    var request := FrameRequest(raw).value;
    Exchange(env, s, raw, now, canOpen);
    RefusedByRequest(env, s, raw, canOpen);
    IllegalLengthHandled(env, s, request, raw, now, canOpen);
    if ReplyTo(env, s, raw, now, canOpen).command == BadRequest {
      RefusalKeepsStore(env, s, raw, now, canOpen);
    }
  }

  /** GetEventList is `invalid` exactly for a window that ends before it starts; otherwise it
      carries the batch of the ids stamped in the window. */
  predicate ListTold(env: Env, p: bytes, reply: StandardResponse) {
    && ParseListRequest(p).Ok?
    && var (start, stop) := ParseListRequest(p).value;
       if start > stop then reply.code == Invalid && reply.payload == []
       else reply.code == Successful && U32Batch.Decoded(reply.payload) == Ok(EventIds(Window(env.events, start, stop)))
  }

  lemma {:induction false} ListHandledTold(env: Env, request: StandardRequest)
    requires HandleGetEventList(env, request).Ok?
    requires 5 + |HandleGetEventList(env, request).value.response.payload| <= Klv.MAX_LENGTH
    ensures ListTold(env, request.payload, HandleGetEventList(env, request).value.response)
  {
    var (start, stop) := ParseListRequest(request.payload).value;
    U32Batch.DecodeEncoded(EventIds(Window(env.events, start, stop)));
  }

  lemma {:induction false} ListAnswered(env: Env, s: Store, raw: bytes, now: u64, canOpen: bool)
    requires |raw| < Klv.MAX_LENGTH
    ensures var reply := ReplyTo(env, s, raw, now, canOpen);
            reply.command == GetEventList ==> FrameRequest(raw).Ok? && ListTold(env, FrameRequest(raw).value.payload, reply)
  {
    AnswerOf(env, s, raw, now, canOpen);
    var reply := ReplyTo(env, s, raw, now, canOpen);
    if reply.command == GetEventList {
      RefusedByRequest(env, s, raw, canOpen);
      EveryRequestHandled(env, s, FrameRequest(raw).value, raw, now, canOpen);
      Exchange(env, s, raw, now, canOpen);
      ListHandledTold(env, FrameRequest(raw).value);
    }
  }

  /** GetEventID is `invalid` exactly when no record has the id; otherwise the client reads
      the text of the first record that has it. */
  predicate EventTold(env: Env, p: bytes, reply: StandardResponse) {
    && ParseIdRequest(p).Ok?
    && var id := ParseIdRequest(p).value;
       && (reply.code == Invalid <==> id !in EventIds(env.events))
       && (reply.code == Successful <==> id in EventIds(env.events))
       && (reply.code == Successful ==>
             && XmlOf(env.events, id) == Some(BytesText(reply.payload))
             && var xml := XmlOf(env.events, id).value;
                |reply.payload| == |xml| && forall i :: 0 <= i < |xml| ==> xml[i] as int == reply.payload[i])
  }

  lemma {:induction false} EventHandledTold(env: Env, request: StandardRequest)
    requires HandleGetEventId(env, request).Ok?
    ensures EventTold(env, request.payload, HandleGetEventId(env, request).value.response)
  {
    var id := ParseIdRequest(request.payload).value;
    XmlOfIsFirst(env.events, id);
    XmlOfIsText(env.events, id);
    if XmlOf(env.events, id).Some? {
      TextRoundTrip(XmlOf(env.events, id).value);
    }
  }

  lemma {:induction false} EventAnswered(env: Env, s: Store, raw: bytes, now: u64, canOpen: bool)
    requires |raw| < Klv.MAX_LENGTH
    ensures var reply := ReplyTo(env, s, raw, now, canOpen);
            reply.command == GetEventId ==> FrameRequest(raw).Ok? && EventTold(env, FrameRequest(raw).value.payload, reply)
  {
    hide Serve, FrameRequest, FrameResponse, Refused, EventTold, HandleGetEventList, HandleGetEventId,
         HandleQuerySpb, HandleLoad, HandleQueryId, HandleQueryAll, HandlePurgeId, HandlePurgeAll;
    AnswerOf(env, s, raw, now, canOpen);
    if ReplyTo(env, s, raw, now, canOpen).command == GetEventId {
      EventHandledTold(env, FrameRequest(raw).value);
    }
  }

  // ---- A listing followed by the lookups it invites ----

  /** Asking for an event by its id, in an exchange of its own, gives its text exactly when
      the answer fits in a frame. */
  predicate Retrieved(env: Env, s: Store, e: EventRecord, requestId: u32, now: u64, canOpen: bool) {
    var framed := RequestFrame(StandardRequest(GetEventId, requestId, ToBe(e.eventId, 4)));
    && framed.Ok? && |framed.value| < Klv.MAX_LENGTH
    && var reply := ReplyTo(env, s, framed.value, now, canOpen);
       if 5 + |RenderXml(e)| <= Klv.MAX_LENGTH then reply.code == Successful && BytesText(reply.payload) == RenderXml(e)
       else reply.command == BadRequest
  }

  lemma {:induction false} OnlyRecordWithId(events: seq<EventRecord>, e: EventRecord)
    requires NoRepeats(EventIds(events)) && e in events
    ensures XmlOf(events, e.eventId) == Some(RenderXml(e))
  {
    var f := FirstWithSameId(events, e);
    var i :| 0 <= i < |events| && events[i] == e;
    var j :| 0 <= j < |events| && events[j] == f;
    assert EventIds(events)[i] == EventIds(events)[j];
  }

  lemma {:induction false} RecordRetrieved(env: Env, s: Store, e: EventRecord, requestId: u32, now: u64, canOpen: bool)
    requires NoRepeats(EventIds(env.events)) && e in env.events && requestId != 0
    ensures Retrieved(env, s, e, requestId, now, canOpen)
  {
    hide Serve, FrameRequest, FrameResponse, Refused, RequestFrame, ToBe, FromBe, RenderXml, XmlOf,
         HandleGetEventList, HandleQuerySpb, HandleLoad, HandleQueryId, HandleQueryAll, HandlePurgeId,
         HandlePurgeAll;
    var request := StandardRequest(GetEventId, requestId, ToBe(e.eventId, 4));
    RequestRoundTrip(request);
    FrameSize(request);
    var raw := RequestFrame(request).value;
    OnlyRecordWithId(env.events, e);
    OwnBytesU32(e.eventId);
    RefusedByRequest(env, s, raw, canOpen);
    AnswerOf(env, s, raw, now, canOpen);
    Exchange(env, s, raw, now, canOpen);
    RenderedIsText(e);
    TextRoundTrip(RenderXml(e));
  }

  /** Over a log without repeated ids, a listing that fits in a frame reports the ids of its
      window, each once, and every record listed is retrieved by its id in a later exchange,
      whatever has happened to the key store meanwhile. */
  lemma {:induction false} ListedEventsAreRetrieved(
    env: Env, s: Store, later: Store, start: u32, stop: u32, requestId: u32, now: u64, canOpen: bool) returns (raw: bytes)
    requires NoRepeats(EventIds(env.events)) && requestId != 0 && start <= stop
    requires 13 + 4 * |Window(env.events, start, stop)| <= Klv.MAX_LENGTH
    ensures RequestFrame(StandardRequest(GetEventList, requestId, ListRequest(start, stop))) == Ok(raw)
    ensures |raw| < Klv.MAX_LENGTH
    ensures U32Batch.Decoded(ReplyTo(env, s, raw, now, canOpen).payload) == Ok(EventIds(Window(env.events, start, stop)))
    ensures NoRepeats(EventIds(Window(env.events, start, stop)))
    ensures forall e :: e in Window(env.events, start, stop) ==>
              InWindow(e, start, stop) && Retrieved(env, later, e, requestId, now, canOpen)
  {
    raw := ListingAnswered(env, s, start, stop, requestId, now, canOpen);
    WindowNoRepeats(env.events, start, stop);
    WindowContents(env.events, start, stop);
    forall e | e in Window(env.events, start, stop)
      ensures Retrieved(env, later, e, requestId, now, canOpen)
    {
      RecordRetrieved(env, later, e, requestId, now, canOpen);
    }
  }

  lemma {:induction false} ListingAnswered(
    env: Env, s: Store, start: u32, stop: u32, requestId: u32, now: u64, canOpen: bool) returns (raw: bytes)
    requires requestId != 0 && start <= stop
    requires 13 + 4 * |Window(env.events, start, stop)| <= Klv.MAX_LENGTH
    ensures RequestFrame(StandardRequest(GetEventList, requestId, ListRequest(start, stop))) == Ok(raw)
    ensures |raw| < Klv.MAX_LENGTH
    ensures U32Batch.Decoded(ReplyTo(env, s, raw, now, canOpen).payload) == Ok(EventIds(Window(env.events, start, stop)))
  {
    var request := StandardRequest(GetEventList, requestId, ListRequest(start, stop));
    RequestRoundTrip(request);
    FrameSize(request);
    raw := RequestFrame(request).value;
    ListRequestRoundTrip(start, stop);
    RefusedByRequest(env, s, raw, canOpen);
    Exchange(env, s, raw, now, canOpen);
    ListAnswered(env, s, raw, now, canOpen);
  }
}
