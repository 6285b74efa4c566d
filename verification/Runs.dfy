/** Whole runs of the responder: sequences of exchanges and restarts. */
module Runs {
  import opened Prelude
  import opened BigEndian
  import opened Codec
  import opened Batch
  import opened KeyRecords
  import opened KeyList
  import opened KeyFile
  import opened KeyStores
  import opened History
  import opened Service
  import opened Server
  import Klv
  import U32Batch

  /** What one read can deliver. */
  type Message = b: bytes | |b| <= 4096

  datatype Input =
    | Request(raw: Message, now: u64, canOpen: bool)
    | Restart

  datatype Exchanged = Exchanged(raw: Message, sent: Result<bytes>)

  datatype Session = Session(store: Store, exchanges: seq<Exchanged>)

  /** The process starts again: records in memory are gone, a file is read back. */
  function Restarted(s: Store): Result<Store> {
    match s
    case InMemory(_) => Ok(InMemory([]))
    case Jsonl(_, file) => Opened(Some(file), true)
  }

  /** The session a list of inputs leads to, or the exception that keeps the process from
      coming up after a restart. */
  function Run(env: Env, s: Store, inputs: seq<Input>): Result<Session>
    decreases |inputs|
  {
    if inputs == [] then Ok(Session(s, []))
    else
      match inputs[0]
      case Restart =>
        var t :- Restarted(s);
        Run(env, t, inputs[1..])
      case Request(raw, now, canOpen) =>
        var served := Serve(env, s, raw, now, canOpen);
        var rest :- Run(env, served.store, inputs[1..]);
        Ok(Session(rest.store, [Exchanged(raw, served.sent)] + rest.exchanges))
  }

  const NEW_MEMORY := InMemory([])
  const NEW_JSONL := Jsonl([], "")

  // ---- Capacity and distinct ids over every run ----

  predicate SoundKeys(keys: seq<LeKeyRecord>) {
    Distinct(keys) && |keys| <= 16
  }

  /** Distinct ids within capacity, in memory and in the file. */
  predicate Sound(s: Store) {
    && SoundKeys(s.keys)
    && (s.Jsonl? ==> ParseFile(s.file).Ok? && SoundKeys(ParseFile(s.file).value))
  }

  lemma {:induction false} NewKeysSound(s: Store, c: Command, p: bytes)
    requires SoundKeys(s.keys)
    ensures SoundKeys(NewKeys(s, c, p))
  {
    if Persists(s, c, p) {
      if c == LeKeyLoad {
        var batch := ParseLoadRequest(p).value;
        LoadKeepsDistinct(s.keys, batch);
        PreCheckSound(s.keys, batch);
      } else if c == LeKeyPurgeId {
        PurgeKeepsOthers(s.keys, ReadU32(p, 0).value);
        PurgeRemoves(s.keys, ReadU32(p, 0).value);
      }
    }
  }

  /** An exchange keeps the kind of store; its file is as before or holds the records. */
  lemma {:induction false} StoreAfter(env: Env, s: Store, raw: bytes, now: u64, canOpen: bool)
    ensures var t := Serve(env, s, raw, now, canOpen).store;
            && (t.Jsonl? <==> s.Jsonl?)
            && (s.Jsonl? ==> t.file == s.file || t.file == PrintFile(t.keys))
            && (t.keys != s.keys ==>
                  && FrameRequest(raw).Ok?
                  && var request := FrameRequest(raw).value;
                     t.keys == NewKeys(s, request.command, request.payload))
  {
    hide Serve, FrameRequest, Handle, Refused, PayloadRejected, ReplyTooLong, NewKeys, Persists, PrintFile;
    ServedStore(env, s, raw, now, canOpen);
    if FrameRequest(raw).Ok? {
      var request := FrameRequest(raw).value;
      RefusedByRequest(env, s, raw, canOpen);
      if request.requestId != 0 {
        EveryRequestHandled(env, s, request, raw, now, canOpen);
        HandleFile(env, s, request, raw, now, canOpen);
      }
    }
  }

  lemma {:induction false} HandleFile(env: Env, s: Store, request: StandardRequest, raw: bytes, now: u64, canOpen: bool)
    ensures var t := Handle(env, s, request, raw, now, canOpen).store;
            && (t.Jsonl? <==> s.Jsonl?)
            && (s.Jsonl? ==> t.file == s.file || t.file == PrintFile(t.keys))
  {
    hide HandleGetEventList, HandleGetEventId, HandleQuerySpb, HandleQueryId, HandleQueryAll, PrintFile,
         WouldOverflow, LoadAll, Lookup, ParseLoadRequest, Flag;
    if request.requestId != 0 {
      match request.command
      case LeKeyLoad =>
      case LeKeyPurgeId =>
        if |request.payload| == 4 {
          PurgeRemoves(s.keys, ReadU32(request.payload, 0).value);
        }
      case LeKeyPurgeAll =>
      case _ =>
    }
  }

  lemma {:induction false} ExchangeKeepsSound(env: Env, s: Store, raw: bytes, now: u64, canOpen: bool)
    requires Sound(s)
    ensures Sound(Serve(env, s, raw, now, canOpen).store)
  {
    StoreAfter(env, s, raw, now, canOpen);
    if FrameRequest(raw).Ok? {
      var request := FrameRequest(raw).value;
      NewKeysSound(s, request.command, request.payload);
    }
    FileRoundTrip(Serve(env, s, raw, now, canOpen).store.keys);
  }

  lemma {:induction false} RunKeepsSound(env: Env, s: Store, inputs: seq<Input>)
    requires Sound(s)
    ensures Run(env, s, inputs).Ok? && Sound(Run(env, s, inputs).value.store)
    decreases |inputs|
  {
    if inputs != [] {
      match inputs[0]
      case Restart => RunKeepsSound(env, Restarted(s).value, inputs[1..]);
      case Request(raw, now, canOpen) =>
        ExchangeKeepsSound(env, s, raw, now, canOpen);
        RunKeepsSound(env, Serve(env, s, raw, now, canOpen).store, inputs[1..]);
    }
  }

  /** From an empty store, whatever is sent, whenever the process restarts and whichever
      writes fail, it comes up again, and holds at most 16 keys with distinct ids. */
  lemma {:induction false} CapacityOverEveryRun(env: Env, inputs: seq<Input>)
    ensures Run(env, NEW_MEMORY, inputs).Ok? && SoundKeys(Run(env, NEW_MEMORY, inputs).value.store.keys)
    ensures Run(env, NEW_JSONL, inputs).Ok? && SoundKeys(Run(env, NEW_JSONL, inputs).value.store.keys)
    ensures Opened(None, true) == Ok(NEW_JSONL)
  {
    FileRoundTrip([]);
    RunKeepsSound(env, NEW_MEMORY, inputs);
    RunKeepsSound(env, NEW_JSONL, inputs);
  }

  /** The answer to this frame is at most 97 bytes long and lists the store's ids, each once. */
  predicate ReportsEachIdOnce(env: Env, s: Store, raw: bytes, now: u64, canOpen: bool) {
    && |raw| < Klv.MAX_LENGTH
    && var reply := ReplyTo(env, s, raw, now, canOpen);
       && reply.code == Successful && U32Batch.Decoded(reply.payload) == Ok(Ids(s.keys))
       && (forall i, j :: 0 <= i < j < |s.keys| ==> Ids(s.keys)[i] != Ids(s.keys)[j])
       && Serve(env, s, raw, now, canOpen).sent.Ok? && |Serve(env, s, raw, now, canOpen).sent.value| <= 97
  }

  lemma {:induction false} SoundStoreReports(env: Env, s: Store, requestId: u32, now: u64, canOpen: bool)
    returns (raw: bytes)
    requires requestId != 0 && SoundKeys(s.keys)
    ensures RequestFrame(StandardRequest(LeKeyQueryAll, requestId, [])) == Ok(raw)
    ensures ReportsEachIdOnce(env, s, raw, now, canOpen)
  {
    hide FrameRequest, FrameResponse, RequestFrame, Refused, Handle;
    raw := QueryAllReportsIds(env, s, requestId, now, canOpen);
    RequestRoundTrip(StandardRequest(LeKeyQueryAll, requestId, []));
    Exchange(env, s, raw, now, canOpen);
    RefusedByRequest(env, s, raw, canOpen);
    KeyRepliesAreShort(env, s, raw, now, canOpen);
  }

  /** After every run of either store, LEKeyQueryAll is answered in at most 97 bytes with the
      ids the store holds, each of them once (section 8.3). */
  lemma {:induction false} QueryAllOverEveryRun(
    env: Env, s: Store, inputs: seq<Input>, requestId: u32, now: u64, canOpen: bool) returns (raw: bytes)
    requires (s == NEW_MEMORY || s == NEW_JSONL) && requestId != 0
    ensures Run(env, s, inputs).Ok?
    ensures RequestFrame(StandardRequest(LeKeyQueryAll, requestId, [])) == Ok(raw)
    ensures ReportsEachIdOnce(env, Run(env, s, inputs).value.store, raw, now, canOpen)
  {
    CapacityOverEveryRun(env, inputs);
    raw := SoundStoreReports(env, Run(env, s, inputs).value.store, requestId, now, canOpen);
  }

  /** The answer to this frame, if it is one to a key command, is at most 97 bytes long. */
  predicate ShortKeyReply(env: Env, s: Store, raw: bytes, now: u64, canOpen: bool)
    requires |raw| < Klv.MAX_LENGTH
  {
    var sent := Serve(env, s, raw, now, canOpen).sent;
    sent.Ok? && (IsKeyCommand(ReplyTo(env, s, raw, now, canOpen).command) ==> |sent.value| <= 97)
  }

  /** After every run of either store, any frame at all. */
  lemma {:induction false} KeyRepliesShortOverEveryRun(
    env: Env, s: Store, inputs: seq<Input>, raw: Message, now: u64, canOpen: bool)
    requires s == NEW_MEMORY || s == NEW_JSONL
    ensures Run(env, s, inputs).Ok? && ShortKeyReply(env, Run(env, s, inputs).value.store, raw, now, canOpen)
  {
    CapacityOverEveryRun(env, inputs);
    KeyRepliesAreShort(env, Run(env, s, inputs).value.store, raw, now, canOpen);
  }

  /** A load of 16 distinct records into an empty store of either kind is accepted. */
  lemma {:induction false} FirstLoad(
    env: Env, s: Store, keys: seq<LeKeyRecord>, requestId: u32, now: u64) returns (raw: Message)
    requires (s == NEW_MEMORY || s == NEW_JSONL) && requestId != 0 && Distinct(keys) && |keys| == 16
    ensures RequestFrame(StandardRequest(LeKeyLoad, requestId, LoadRequest(keys))) == Ok(raw)
    ensures ReplyTo(env, s, raw, now, true).code == Successful
    ensures |Serve(env, s, raw, now, true).store.keys| == 16
  {
    var request := StandardRequest(LeKeyLoad, requestId, LoadRequest(keys));
    SixteenSize(keys);
    RequestRoundTrip(request);
    FrameSize(request);
    raw := RequestFrame(request).value;
    LoadRequestRoundTrip(keys);
    LoadRequestAccepted(LoadRequest(keys));
    FirstLoadServed(env, s, request, keys, raw, now);
  }

  lemma {:induction false} FirstLoadServed(
    env: Env, s: Store, request: StandardRequest, keys: seq<LeKeyRecord>, raw: Message, now: u64)
    requires s.keys == [] && Distinct(keys) && |keys| == 16 && FrameRequest(raw) == Ok(request)
    requires request.command == LeKeyLoad && request.requestId != 0 && ParseLoadRequest(request.payload) == Ok(keys)
    ensures ReplyTo(env, s, raw, now, true).code == Successful
    ensures |Serve(env, s, raw, now, true).store.keys| == 16
  {
    LoadRequestAccepted(request.payload);
    hide Serve, FrameRequest, FrameResponse, Refused, ParseLoadRequest, BatchShape, Persists, HandleLoad;
    FirstLoadHandled(s, request, keys);
    Exchange(env, s, raw, now, true);
    RefusedByRequest(env, s, raw, true);
    ServedStore(env, s, raw, now, true);
  }

  lemma {:induction false} FirstLoadHandled(s: Store, request: StandardRequest, keys: seq<LeKeyRecord>)
    requires s.keys == [] && ParseLoadRequest(request.payload) == Ok(keys) && Distinct(keys) && |keys| == 16
    ensures var handled := HandleLoad(s, request, true);
            && handled.result.Ok? && handled.result.value.response.code == Successful && |handled.store.keys| == 16
  {
    hide ParseLoadRequest, LoadAll, WouldOverflow, Load;
    EmptyStoreTakes(keys);
    LoadSteps(s, keys, true);
  }

  lemma {:induction false} SixteenSize(keys: seq<LeKeyRecord>)
    requires |keys| == 16
    ensures |LoadRequest(keys)| == 520
  {
    RecordSlice(keys, 0);
  }

  /** The bound of 97 bytes is reached: load 16 distinct records into an empty store of either
      kind and ask for the ids. */
  lemma {:induction false} BoundReached(env: Env, s: Store, keys: seq<LeKeyRecord>, requestId: u32, now: u64)
    returns (load: Message, list: Message)
    requires (s == NEW_MEMORY || s == NEW_JSONL) && requestId != 0 && Distinct(keys) && |keys| == 16
    ensures RequestFrame(StandardRequest(LeKeyLoad, requestId, LoadRequest(keys))) == Ok(load)
    ensures RequestFrame(StandardRequest(LeKeyQueryAll, requestId, [])) == Ok(list)
    ensures var run := Run(env, s, [Request(load, now, true), Request(list, now, true)]);
            && run.Ok? && |run.value.exchanges| == 2
            && run.value.exchanges[1].sent.Ok? && |run.value.exchanges[1].sent.value| == 97
  {
    hide Serve, FrameRequest, RequestFrame, LoadRequest, Run;
    load := FirstLoad(env, s, keys, requestId, now);
    var loaded := Serve(env, s, load, now, true).store;
    list := ListingOf(env, loaded, requestId, now);
    CapacityOverEveryRun(env, [Request(load, now, true), Request(list, now, true)]);
    SecondExchange(env, s, [Request(load, now, true), Request(list, now, true)]);
  }

  /** The second exchange of a run of two is served from the store the first one left. */
  lemma {:induction false} SecondExchange(env: Env, s: Store, inputs: seq<Input>)
    requires |inputs| == 2 && inputs[0].Request? && inputs[1].Request? && Run(env, s, inputs).Ok?
    ensures var xs := Run(env, s, inputs).value.exchanges;
            var one := Serve(env, s, inputs[0].raw, inputs[0].now, inputs[0].canOpen);
            |xs| == 2 && xs[1].sent == Serve(env, one.store, inputs[1].raw, inputs[1].now, inputs[1].canOpen).sent
  {
    hide Serve;
    var one := Serve(env, s, inputs[0].raw, inputs[0].now, inputs[0].canOpen);
    FirstExchange(env, s, inputs);
    FirstExchange(env, one.store, inputs[1..]);
    hide Run;
    assert inputs[1..][0] == inputs[1] && inputs[1..][1..] == [];
    NoInputs(env, Serve(env, one.store, inputs[1].raw, inputs[1].now, inputs[1].canOpen).store);
  }

  lemma {:induction false} NoInputs(env: Env, s: Store)
    ensures Run(env, s, []) == Ok(Session(s, []))
  {
  }

  lemma {:induction false} ListingOf(env: Env, s: Store, requestId: u32, now: u64) returns (raw: Message)
    requires requestId != 0 && |s.keys| == 16
    ensures RequestFrame(StandardRequest(LeKeyQueryAll, requestId, [])) == Ok(raw)
    ensures Serve(env, s, raw, now, true).sent.Ok? && |Serve(env, s, raw, now, true).sent.value| == 97
  {
    hide Serve, FrameRequest, FrameResponse, RequestFrame, Refused, Handle;
    var list := QueryAllReportsIds(env, s, requestId, now, true);
    FrameSize(StandardRequest(LeKeyQueryAll, requestId, []));
    raw := list;
    Exchange(env, s, raw, now, true);
    U32Batch.DecodedSize(ReplyTo(env, s, raw, now, true).payload);
  }

  /** A restart of the store in memory forgets everything before it. */
  lemma {:induction false} RestartForgets(env: Env, keys: seq<LeKeyRecord>, before: seq<Input>, after: seq<Input>)
    ensures Run(env, NEW_MEMORY, after).Ok?
    ensures Run(env, InMemory(keys), before + [Restart] + after).Ok?
    ensures Run(env, InMemory(keys), before + [Restart] + after).value.store == Run(env, NEW_MEMORY, after).value.store
    decreases |before|
  {
    hide Serve;
    var inputs := before + [Restart] + after;
    MemoryRuns(env, [], after);
    MemoryRuns(env, keys, inputs);
    if before == [] {
      assert inputs[0] == Restart && inputs[1..] == after;
    } else {
      assert inputs[0] == before[0] && inputs[1..] == before[1..] + [Restart] + after;
      match before[0]
      case Restart => RestartForgets(env, [], before[1..], after);
      case Request(raw, now, canOpen) =>
        StoreAfter(env, InMemory(keys), raw, now, canOpen);
        RestartForgets(env, Serve(env, InMemory(keys), raw, now, canOpen).store.keys, before[1..], after);
    }
  }

  /** Every run of a store opened on this text comes up after each restart and ends with at
      most 16 keys with distinct ids. */
  ghost predicate StaysSound(env: Env, file: string)
    requires ParseFile(file).Ok?
  {
    forall inputs :: var run := Run(env, Jsonl(ParseFile(file).value, file), inputs);
                     run.Ok? && SoundKeys(run.value.store.keys)
  }

  /** A store opened on an existing file keeps the guarantee over every run if and only if the
      records in the file meet it. */
  lemma {:induction false} OpenedFileStaysSoundIff(env: Env, file: string)
    requires ParseFile(file).Ok?
    ensures Opened(Some(file), true) == Ok(Jsonl(ParseFile(file).value, file))
    ensures StaysSound(env, file) <==> SoundKeys(ParseFile(file).value)
  {
    var s := Jsonl(ParseFile(file).value, file);
    if SoundKeys(ParseFile(file).value) {
      forall inputs
        ensures Run(env, s, inputs).Ok? && SoundKeys(Run(env, s, inputs).value.store.keys)
      {
        RunKeepsSound(env, s, inputs);
      }
    } else {
      assert Run(env, s, []) == Ok(Session(s, []));
    }
  }

  /** The constructor itself asks nothing of the records: some file opens to any list of
      records at all, however long and however often it repeats an id. */
  lemma {:induction false} ForeignFileOpensToAnything(keys: seq<LeKeyRecord>) returns (file: string)
    ensures Opened(Some(file), true) == Ok(Jsonl(keys, file))
  {
    file := PrintFile(keys);
    FileRoundTrip(keys);
  }

  // ---- What survives a restart, also when writes fail ----

  /** The file-backed store without its text: the records in memory and the records that
      were last written out. */
  datatype Durable = Durable(memory: seq<LeKeyRecord>, disk: seq<LeKeyRecord>)

  /** The exchange gets as far as writing the records out, and the file opens. */
  predicate WritesOut(keys: seq<LeKeyRecord>, raw: bytes, canOpen: bool) {
    && canOpen && FrameRequest(raw).Ok?
    && FrameRequest(raw).value.requestId != 0
    && Persists(InMemory(keys), FrameRequest(raw).value.command, FrameRequest(raw).value.payload)
  }

  /** A restart falls back to what was written; an exchange changes the memory as it would
      change a store in memory, and the disk only if it writes out. */
  function DurableRun(env: Env, d: Durable, inputs: seq<Input>): Durable
    decreases |inputs|
  {
    if inputs == [] then d
    else
      match inputs[0]
      case Restart => DurableRun(env, Durable(d.disk, d.disk), inputs[1..])
      case Request(raw, now, canOpen) =>
        var keys := Serve(env, InMemory(d.memory), raw, now, canOpen).store.keys;
        DurableRun(env, Durable(keys, if WritesOut(d.memory, raw, canOpen) then keys else d.disk), inputs[1..])
  }

  lemma {:induction false} HandledFile(env: Env, keys: seq<LeKeyRecord>, file: string, request: StandardRequest,
                                       raw: bytes, now: u64, canOpen: bool)
    requires request.requestId != 0
    ensures var t := Handle(env, Jsonl(keys, file), request, raw, now, canOpen).store;
            && t.Jsonl?
            && t.file == if canOpen && Persists(InMemory(keys), request.command, request.payload)
                         then PrintFile(t.keys) else file
  {
    match request.command
    case LeKeyLoad =>
    case LeKeyPurgeId =>
      if |request.payload| == 4 {
        PurgeRemoves(keys, ReadU32(request.payload, 0).value);
      }
    case LeKeyPurgeAll =>
    case _ =>
  }

  lemma {:induction false} SameMemory(env: Env, keys: seq<LeKeyRecord>, file: string, raw: bytes, now: u64, canOpen: bool)
    ensures Serve(env, Jsonl(keys, file), raw, now, canOpen).store.keys
         == Serve(env, InMemory(keys), raw, now, canOpen).store.keys
  {
    hide Serve, FrameRequest, Handle, Refused, PayloadRejected, ReplyTooLong, ParseLoadRequest, LoadAll,
         Without, Lookup, WouldOverflow;
    ServedStore(env, Jsonl(keys, file), raw, now, canOpen);
    ServedStore(env, InMemory(keys), raw, now, canOpen);
    if FrameRequest(raw).Ok? && FrameRequest(raw).value.requestId != 0 {
      RefusedByRequest(env, InMemory(keys), raw, canOpen);
      EveryRequestHandled(env, Jsonl(keys, file), FrameRequest(raw).value, raw, now, canOpen);
      EveryRequestHandled(env, InMemory(keys), FrameRequest(raw).value, raw, now, canOpen);
    }
  }

  lemma {:induction false} DurableStep(env: Env, keys: seq<LeKeyRecord>, file: string, raw: bytes, now: u64, canOpen: bool)
    ensures var t := Serve(env, Jsonl(keys, file), raw, now, canOpen).store;
            && t.Jsonl? && t.keys == Serve(env, InMemory(keys), raw, now, canOpen).store.keys
            && t.file == if WritesOut(keys, raw, canOpen) then PrintFile(t.keys) else file
  {
    hide Serve, FrameRequest, Handle, PrintFile, Persists;
    ServedStore(env, Jsonl(keys, file), raw, now, canOpen);
    SameMemory(env, keys, file, raw, now, canOpen);
    if FrameRequest(raw).Ok? && FrameRequest(raw).value.requestId != 0 {
      HandledFile(env, keys, file, FrameRequest(raw).value, raw, now, canOpen);
    }
  }

  /** Over every run, with any writes failing and restarts anywhere, the store holds the
      memory of the text-free machine and its file parses to the disk of that machine. */
  lemma {:induction false} FileIsLastWrite(
    env: Env, keys: seq<LeKeyRecord>, file: string, disk: seq<LeKeyRecord>, inputs: seq<Input>)
    requires ParseFile(file) == Ok(disk)
    ensures Run(env, Jsonl(keys, file), inputs).Ok?
    ensures var s, d := Run(env, Jsonl(keys, file), inputs).value.store, DurableRun(env, Durable(keys, disk), inputs);
            s.Jsonl? && s.keys == d.memory && ParseFile(s.file) == Ok(d.disk)
    decreases |inputs|
  {
    if inputs != [] {
      match inputs[0]
      case Restart => FileIsLastWrite(env, disk, file, disk, inputs[1..]);
      case Request(raw, now, canOpen) =>
        var t := Serve(env, Jsonl(keys, file), raw, now, canOpen).store;
        DurableStep(env, keys, file, raw, now, canOpen);
        FileRoundTrip(t.keys);
        FileIsLastWrite(env, t.keys, t.file, if WritesOut(keys, raw, canOpen) then t.keys else disk, inputs[1..]);
    }
  }

  // ---- The file-backed store behaves like the one in memory ----

  function Requests(inputs: seq<Input>): seq<Input> {
    if inputs == [] then []
    else (if inputs[0].Restart? then [] else [inputs[0]]) + Requests(inputs[1..])
  }

  /** The exchange would write the records out and cannot. */
  predicate FailsToPersist(s: Store, raw: bytes, canOpen: bool) {
    && FrameRequest(raw).Ok?
    && FrameRequest(raw).value.requestId != 0
    && PersistFails(s, FrameRequest(raw).value.command, FrameRequest(raw).value.payload, canOpen)
  }

  /** No exchange of the run, as the store in memory goes through it, would need a file
      that cannot be opened. */
  predicate NoFailure(env: Env, keys: seq<LeKeyRecord>, inputs: seq<Input>)
    decreases |inputs|
  {
    if inputs == [] then true
    else
      match inputs[0]
      case Restart => NoFailure(env, keys, inputs[1..])
      case Request(raw, now, canOpen) =>
        && !FailsToPersist(Jsonl(keys, ""), raw, canOpen)
        && NoFailure(env, Serve(env, InMemory(keys), raw, now, canOpen).store.keys, inputs[1..])
  }

  lemma {:induction false} OpenFilesNeverFail(env: Env, keys: seq<LeKeyRecord>, inputs: seq<Input>)
    requires forall x :: x in inputs && x.Request? ==> x.canOpen
    ensures NoFailure(env, keys, inputs)
    decreases |inputs|
  {
    if inputs != [] {
      assert inputs[0] in inputs;
      match inputs[0]
      case Restart => OpenFilesNeverFail(env, keys, inputs[1..]);
      case Request(raw, now, canOpen) =>
        OpenFilesNeverFail(env, Serve(env, InMemory(keys), raw, now, canOpen).store.keys, inputs[1..]);
    }
  }

  /** Two outcomes that differ in nothing but the file. */
  predicate Alike<T(==)>(j: Outcome<T>, m: Outcome<T>) {
    j.result == m.result && j.store.keys == m.store.keys
  }

  lemma {:induction false} LoadedAlike(keys: seq<LeKeyRecord>, file: string, request: StandardRequest, canOpen: bool)
    requires request.command == LeKeyLoad && !PersistFails(Jsonl(keys, file), request.command, request.payload, canOpen)
    ensures Alike(HandleLoad(Jsonl(keys, file), request, canOpen), HandleLoad(InMemory(keys), request, canOpen))
  {
  }

  lemma {:induction false} PurgedAlike(keys: seq<LeKeyRecord>, file: string, request: StandardRequest, canOpen: bool)
    requires request.command == LeKeyPurgeId && !PersistFails(Jsonl(keys, file), request.command, request.payload, canOpen)
    ensures Alike(HandlePurgeId(Jsonl(keys, file), request, canOpen), HandlePurgeId(InMemory(keys), request, canOpen))
  {
    if |request.payload| == 4 {
      PurgeRemoves(keys, ReadU32(request.payload, 0).value);
    }
  }

  lemma {:induction false} ClearedAlike(keys: seq<LeKeyRecord>, file: string, request: StandardRequest, canOpen: bool)
    requires request.command == LeKeyPurgeAll && !PersistFails(Jsonl(keys, file), request.command, request.payload, canOpen)
    ensures Alike(HandlePurgeAll(Jsonl(keys, file), request, canOpen), HandlePurgeAll(InMemory(keys), request, canOpen))
  {
  }

  /** Handling does not look at the file: without a failing write, both stores give the same
      result and the same records. */
  lemma {:induction false} HandledAlike(env: Env, keys: seq<LeKeyRecord>, file: string, request: StandardRequest,
                                        raw: bytes, now: u64, canOpen: bool)
    requires request.requestId != 0 ==> !PersistFails(Jsonl(keys, file), request.command, request.payload, canOpen)
    ensures Alike(Handle(env, Jsonl(keys, file), request, raw, now, canOpen),
                  Handle(env, InMemory(keys), request, raw, now, canOpen))
  {
    if request.requestId != 0 {
      match request.command
      case LeKeyLoad => LoadedAlike(keys, file, request, canOpen);
      case LeKeyPurgeId => PurgedAlike(keys, file, request, canOpen);
      case LeKeyPurgeAll => ClearedAlike(keys, file, request, canOpen);
      case _ =>
    }
  }

  lemma {:induction false} UnwrittenKeepsKeys(env: Env, keys: seq<LeKeyRecord>, raw: bytes, now: u64, canOpen: bool)
    requires !WritesOut(keys, raw, canOpen) && !FailsToPersist(Jsonl(keys, ""), raw, canOpen)
    ensures Serve(env, InMemory(keys), raw, now, canOpen).store.keys == keys
  {
    StoreAfter(env, InMemory(keys), raw, now, canOpen);
    if FrameRequest(raw).Ok? && FrameRequest(raw).value.requestId == 0 {
      RefusedByRequest(env, InMemory(keys), raw, canOpen);
    }
  }

  lemma {:induction false} ServedAlike(env: Env, keys: seq<LeKeyRecord>, file: string, raw: bytes, now: u64, canOpen: bool)
    requires ParseFile(file) == Ok(keys) && !FailsToPersist(Jsonl(keys, file), raw, canOpen)
    ensures var j, m := Serve(env, Jsonl(keys, file), raw, now, canOpen), Serve(env, InMemory(keys), raw, now, canOpen);
            && j.sent == m.sent && j.trace == m.trace && j.store.keys == m.store.keys
            && j.store.Jsonl? && m.store == InMemory(m.store.keys)
            && ParseFile(j.store.file) == Ok(j.store.keys)
  {
    hide Serve, FrameRequest, Handle, ParseFile, PrintFile, ParseLoadRequest, Lookup, WouldOverflow;
    DurableStep(env, keys, file, raw, now, canOpen);
    FileRoundTrip(Serve(env, Jsonl(keys, file), raw, now, canOpen).store.keys);
    StoreAfter(env, InMemory(keys), raw, now, canOpen);
    if !WritesOut(keys, raw, canOpen) {
      UnwrittenKeepsKeys(env, keys, raw, now, canOpen);
    }
    if FrameRequest(raw).Ok? {
      HandledAlike(env, keys, file, FrameRequest(raw).value, raw, now, canOpen);
    }
    ServedResult(env, Jsonl(keys, file), InMemory(keys), raw, now, canOpen);
  }

  lemma {:induction false} ServedApart(env: Env, keys: seq<LeKeyRecord>, file: string, raw: Message, now: u64, canOpen: bool)
    requires FailsToPersist(Jsonl(keys, file), raw, canOpen)
    ensures Serve(env, Jsonl(keys, file), raw, now, canOpen).sent != Serve(env, InMemory(keys), raw, now, canOpen).sent
  {
    Exchange(env, Jsonl(keys, file), raw, now, canOpen);
    Exchange(env, InMemory(keys), raw, now, canOpen);
    RefusedByRequest(env, Jsonl(keys, file), raw, canOpen);
    RefusedByRequest(env, InMemory(keys), raw, canOpen);
    LoadRequestAccepted(FrameRequest(raw).value.payload);
  }

  /** A store in memory comes up after every restart. */
  lemma {:induction false} MemoryRuns(env: Env, keys: seq<LeKeyRecord>, inputs: seq<Input>)
    ensures Run(env, InMemory(keys), inputs).Ok?
    decreases |inputs|
  {
    if inputs != [] {
      match inputs[0]
      case Restart => MemoryRuns(env, [], inputs[1..]);
      case Request(raw, now, canOpen) =>
        StoreAfter(env, InMemory(keys), raw, now, canOpen);
        MemoryRuns(env, Serve(env, InMemory(keys), raw, now, canOpen).store.keys, inputs[1..]);
    }
  }

  /** A JSONL store, restarted at any point, and a store in memory that never restarts give
      the same replies throughout if and only if no write that a request calls for fails;
      and then they also end with the same records in the same order, which the file holds. */
  lemma {:induction false} StoresAgreeIff(env: Env, keys: seq<LeKeyRecord>, file: string, inputs: seq<Input>)
    requires ParseFile(file) == Ok(keys)
    ensures Run(env, Jsonl(keys, file), inputs).Ok? && Run(env, InMemory(keys), Requests(inputs)).Ok?
    ensures var j, m := Run(env, Jsonl(keys, file), inputs).value, Run(env, InMemory(keys), Requests(inputs)).value;
            && (j.exchanges == m.exchanges <==> NoFailure(env, keys, inputs))
            && (NoFailure(env, keys, inputs) ==>
                  j.store.keys == m.store.keys && j.store.Jsonl? && ParseFile(j.store.file) == Ok(j.store.keys))
    decreases |inputs|
  {
    hide Serve, FrameRequest, DurableRun, ParseFile;
    FileIsLastWrite(env, keys, file, keys, inputs);
    MemoryRuns(env, keys, Requests(inputs));
    if inputs != [] {
      match inputs[0]
      case Restart =>
        assert Requests(inputs) == Requests(inputs[1..]);
        StoresAgreeIff(env, keys, file, inputs[1..]);
      case Request(raw, now, canOpen) =>
        assert Requests(inputs)[0] == inputs[0] && Requests(inputs)[1..] == Requests(inputs[1..]);
        if FailsToPersist(Jsonl(keys, file), raw, canOpen) {
          ServedApart(env, keys, file, raw, now, canOpen);
          FirstExchange(env, Jsonl(keys, file), inputs);
          FirstExchange(env, InMemory(keys), Requests(inputs));
        } else {
          ServedAlike(env, keys, file, raw, now, canOpen);
          var j, m := Serve(env, Jsonl(keys, file), raw, now, canOpen), Serve(env, InMemory(keys), raw, now, canOpen);
          StoresAgreeIff(env, j.store.keys, j.store.file, inputs[1..]);
          FirstExchange(env, Jsonl(keys, file), inputs);
          FirstExchange(env, InMemory(keys), Requests(inputs));
        }
    }
  }

  lemma {:induction false} FirstExchange(env: Env, s: Store, inputs: seq<Input>)
    requires inputs != [] && inputs[0].Request? && Run(env, s, inputs).Ok?
    ensures var x := inputs[0];
            var served := Serve(env, s, x.raw, x.now, x.canOpen);
            && Run(env, served.store, inputs[1..]).Ok?
            && var run, rest := Run(env, s, inputs).value, Run(env, served.store, inputs[1..]).value;
               && run.exchanges != [] && run.exchanges[0] == Exchanged(x.raw, served.sent)
               && run.exchanges[1..] == rest.exchanges && run.store == rest.store
               && run.exchanges == [run.exchanges[0]] + rest.exchanges
  {
  }

  // ---- The store is the map the client can work out from the exchanges ----

  /** What a command answered with this code did, as the client sees it. */
  function DeedOfAnswer(request: StandardRequest, code: GeneralResponse): Deed {
    if code != Successful then Nothing
    else
      match request.command
      case LeKeyLoad =>
        if ParseLoadRequest(request.payload).Ok? then Loaded(ParseLoadRequest(request.payload).value) else Nothing
      case LeKeyPurgeId =>
        if |request.payload| == 4 then PurgedId(ReadU32(request.payload, 0).value) else Nothing
      case LeKeyPurgeAll => PurgedAll
      case _ => Nothing
  }

  /** The deed of an exchange, worked out from the request and reply frames alone. */
  function DeedOf(x: Exchanged): Deed {
    match FrameRequest(x.raw)
    case Err(_) => Nothing
    case Ok(request) =>
      if x.sent.Err? || FrameResponse(x.sent.value).Err? then Nothing
      else
        var reply := FrameResponse(x.sent.value).value;
        if reply.command != request.command then Nothing else DeedOfAnswer(request, reply.code)
  }

  function Deeds(xs: seq<Exchanged>): seq<Deed> {
    if xs == [] then [] else [DeedOf(xs[0])] + Deeds(xs[1..])
  }

  lemma {:induction false} LoadEffect(s: Store, request: StandardRequest, canOpen: bool, id: u32)
    requires request.command == LeKeyLoad && HandleLoad(s, request, canOpen).result.Ok?
    ensures var handled := HandleLoad(s, request, canOpen);
            Lookup(handled.store.keys, id)
            == Effect(DeedOfAnswer(request, handled.result.value.response.code), id, Lookup(s.keys, id))
  {
    var batch := ParseLoadRequest(request.payload).value;
    LoadSteps(s, batch, canOpen);
    LoadUpdatesMap(s.keys, batch, id);
  }

  lemma {:induction false} PurgeIdEffect(s: Store, request: StandardRequest, canOpen: bool, id: u32)
    requires request.command == LeKeyPurgeId && HandlePurgeId(s, request, canOpen).result.Ok?
    ensures var handled := HandlePurgeId(s, request, canOpen);
            Lookup(handled.store.keys, id)
            == Effect(DeedOfAnswer(request, handled.result.value.response.code), id, Lookup(s.keys, id))
  {
    hide Purge, Without, Lookup, ParseLoadRequest;
    var other := ReadU32(request.payload, 0).value;
    var handled := HandlePurgeId(s, request, canOpen);
    assert handled.store == Purge(s, other, canOpen).store;
    assert DeedOfAnswer(request, handled.result.value.response.code) == PurgedId(other);
    PurgeSteps(s, other, canOpen);
    PurgeUpdatesMap(s.keys, other, id);
  }

  lemma {:induction false} PurgeAllEffect(s: Store, request: StandardRequest, canOpen: bool, id: u32)
    requires request.command == LeKeyPurgeAll && HandlePurgeAll(s, request, canOpen).result.Ok?
    ensures var handled := HandlePurgeAll(s, request, canOpen);
            Lookup(handled.store.keys, id)
            == Effect(DeedOfAnswer(request, handled.result.value.response.code), id, Lookup(s.keys, id))
  {
    hide ParseLoadRequest;
  }

  lemma {:induction false} CommandEffect(
    env: Env, s: Store, request: StandardRequest, raw: bytes, now: u64, canOpen: bool, id: u32)
    requires request.requestId != 0 && Handle(env, s, request, raw, now, canOpen).result.Ok?
    ensures var handled := Handle(env, s, request, raw, now, canOpen);
            Lookup(handled.store.keys, id)
            == Effect(DeedOfAnswer(request, handled.result.value.response.code), id, Lookup(s.keys, id))
  {
    hide HandleGetEventList, HandleGetEventId, HandleQuerySpb, HandleLoad, HandleQueryId, HandleQueryAll,
         HandlePurgeId, HandlePurgeAll;
    match request.command
    case LeKeyLoad => LoadEffect(s, request, canOpen, id);
    case LeKeyPurgeId => PurgeIdEffect(s, request, canOpen, id);
    case LeKeyPurgeAll => PurgeAllEffect(s, request, canOpen, id);
    case _ =>
  }

  lemma {:induction false} DeedOfExchange(env: Env, s: Store, raw: Message, now: u64, canOpen: bool)
    ensures var reply := ReplyTo(env, s, raw, now, canOpen);
            var deed := DeedOf(Exchanged(raw, Serve(env, s, raw, now, canOpen).sent));
            if reply.command == BadRequest then deed == Nothing
            else FrameRequest(raw).Ok? && deed == DeedOfAnswer(FrameRequest(raw).value, reply.code)
  {
    Exchange(env, s, raw, now, canOpen);
    RefusedByRequest(env, s, raw, canOpen);
  }

  lemma {:induction false} ExchangeEffect(env: Env, s: Store, raw: Message, now: u64, canOpen: bool, id: u32)
    requires !LosesPersist(s, raw, canOpen)
    ensures var served := Serve(env, s, raw, now, canOpen);
            Lookup(served.store.keys, id) == Effect(DeedOf(Exchanged(raw, served.sent)), id, Lookup(s.keys, id))
  {
    hide Serve, FrameRequest, FrameResponse, Handle, Lookup, LosesPersist, DeedOf;
    DeedOfExchange(env, s, raw, now, canOpen);
    Exchange(env, s, raw, now, canOpen);
    if ReplyTo(env, s, raw, now, canOpen).command == BadRequest {
      RefusalKeepsStore(env, s, raw, now, canOpen);
    } else {
      CommandEffect(env, s, FrameRequest(raw).value, raw, now, canOpen, id);
    }
  }

  /** Every id is affected as the two frames tell. */
  ghost predicate AsTold(before: seq<LeKeyRecord>, x: Exchanged, after: seq<LeKeyRecord>) {
    forall id: u32 :: Lookup(after, id) == Effect(DeedOf(x), id, Lookup(before, id))
  }

  lemma {:induction false} WrittenShows(s: Store, c: Command, p: bytes) returns (id: u32)
    requires Persists(s, c, p) && HasSomethingToWrite(s, c, p)
    ensures Lookup(NewKeys(s, c, p), id) != Lookup(s.keys, id)
  {
    match c
    case LeKeyLoad =>
      var batch := ParseLoadRequest(p).value;
      var i :| 0 <= i < |batch| && Lookup(s.keys, batch[i].keyId) != LastIn(batch, batch[i].keyId);
      id := batch[i].keyId;
      LastInIsLast(batch, id);
      LoadUpdatesMap(s.keys, batch, id);
    case LeKeyPurgeId =>
      id := ReadU32(p, 0).value;
      PurgeUpdatesMap(s.keys, id, id);
    case LeKeyPurgeAll =>
      id := s.keys[0].keyId;
      FoundAt(s.keys, id, 0);
      NotFound([], id);
  }

  lemma {:induction false} LossShows(env: Env, s: Store, raw: Message, now: u64, canOpen: bool)
    requires LosesPersist(s, raw, canOpen)
    ensures var served := Serve(env, s, raw, now, canOpen);
            !AsTold(s.keys, Exchanged(raw, served.sent), served.store.keys)
  {
    hide Serve, FrameRequest, FrameResponse, Handle, Refused, PayloadRejected, ReplyTooLong, DeedOf, Persists,
         NewKeys, HasSomethingToWrite;
    ServedStore(env, s, raw, now, canOpen);
    var request := FrameRequest(raw).value;
    DeedOfExchange(env, s, raw, now, canOpen);
    Exchange(env, s, raw, now, canOpen);
    RefusedByRequest(env, s, raw, canOpen);
    EveryRequestHandled(env, s, request, raw, now, canOpen);
    var id := WrittenShows(s, request.command, request.payload);
    assert DeedOf(Exchanged(raw, Serve(env, s, raw, now, canOpen).sent)) == Nothing;
    assert Gives(Nothing, id).None? && !Takes(Nothing, id);
    assert Effect(Nothing, id, Lookup(s.keys, id)) == Lookup(s.keys, id);
  }

  /** The store changes as the two frames tell if and only if no records to write are lost. */
  lemma {:induction false} ExchangeAsToldIff(env: Env, s: Store, raw: Message, now: u64, canOpen: bool)
    ensures var served := Serve(env, s, raw, now, canOpen);
            AsTold(s.keys, Exchanged(raw, served.sent), served.store.keys) <==> !LosesPersist(s, raw, canOpen)
  {
    if LosesPersist(s, raw, canOpen) {
      LossShows(env, s, raw, now, canOpen);
    } else {
      var served := Serve(env, s, raw, now, canOpen);
      forall id: u32
        ensures Lookup(served.store.keys, id) == Effect(DeedOf(Exchanged(raw, served.sent)), id, Lookup(s.keys, id))
      {
        ExchangeEffect(env, s, raw, now, canOpen, id);
      }
    }
  }

  lemma {:induction false} RunEffect(env: Env, keys: seq<LeKeyRecord>, inputs: seq<Input>, id: u32)
    requires forall x :: x in inputs ==> x.Request?
    ensures Run(env, InMemory(keys), inputs).Ok?
    ensures var run := Run(env, InMemory(keys), inputs).value;
            Lookup(run.store.keys, id) == Known(Deeds(run.exchanges), id, Lookup(keys, id))
    decreases |inputs|
  {
    hide Serve, FrameRequest, Lookup, DeedOf;
    if inputs != [] {
      assert inputs[0] in inputs;
      var x, s := inputs[0], InMemory(keys);
      StoreAfter(env, s, x.raw, x.now, x.canOpen);
      var served := Serve(env, s, x.raw, x.now, x.canOpen);
      RunEffect(env, served.store.keys, inputs[1..], id);
      ExchangeEffect(env, s, x.raw, x.now, x.canOpen, id);
      FirstExchange(env, s, inputs);
      NextDeed(Exchanged(x.raw, served.sent), Run(env, served.store, inputs[1..]).value.exchanges, id, Lookup(keys, id));
    }
  }

  lemma {:induction false} NextDeed(x: Exchanged, rest: seq<Exchanged>, id: u32, before: Option<LeKeyRecord>)
    ensures Known(Deeds([x] + rest), id, before) == Known(Deeds(rest), id, Effect(DeedOf(x), id, before))
  {
    var xs := [x] + rest;
    assert xs[0] == x && xs[1..] == rest;
    assert Deeds(xs)[1..] == Deeds(rest);
  }

  /** What the exchanges of a run tell about an id is what the store holds for it. */
  ghost predicate ClientView(keys: seq<LeKeyRecord>, ds: seq<Deed>, id: u32) {
    && (Lookup(keys, id).Some? <==> exists i :: LoadedAndKept(ds, i, id))
    && (Lookup(keys, id).Some? ==> exists i: nat :: LastLoad(ds, i, id) && Gives(ds[i], id) == Lookup(keys, id))
  }

  /** Over every run from an empty store: an id is stored exactly when some accepted load
      contained it and no later successful purge named it or all keys, and what is stored
      is what the last accepted load gave for it. */
  lemma {:induction false} StoreIsClientView(env: Env, inputs: seq<Input>, id: u32)
    requires forall x :: x in inputs ==> x.Request?
    ensures Run(env, NEW_MEMORY, inputs).Ok?
    ensures var run := Run(env, NEW_MEMORY, inputs).value;
            ClientView(run.store.keys, Deeds(run.exchanges), id)
  {
    RunEffect(env, [], inputs, id);
    KnownIff(Deeds(Run(env, NEW_MEMORY, inputs).value.exchanges), id);
  }

  lemma {:induction false} OnlyRequests(inputs: seq<Input>)
    ensures forall x :: x in Requests(inputs) ==> x.Request?
  {
    if inputs != [] {
      OnlyRequests(inputs[1..]);
    }
  }

  /** The same for the file-backed store, restarts included, as long as no write fails. */
  lemma {:induction false} FileStoreIsClientView(env: Env, inputs: seq<Input>, id: u32)
    requires NoFailure(env, [], inputs)
    ensures Run(env, NEW_JSONL, inputs).Ok?
    ensures var run := Run(env, NEW_JSONL, inputs).value;
            ClientView(run.store.keys, Deeds(run.exchanges), id)
  {
    FileRoundTrip([]);
    StoresAgreeIff(env, [], "", inputs);
    OnlyRequests(inputs);
    StoreIsClientView(env, Requests(inputs), id);
  }

  /** LEKeyQueryID answers 1 exactly for the ids the store holds. */
  lemma {:induction false} QueryAnswersLookup(env: Env, s: Store, id: u32, requestId: u32, now: u64, canOpen: bool)
    returns (raw: Message)
    requires requestId != 0
    ensures RequestFrame(StandardRequest(LeKeyQueryId, requestId, ToBe(id, 4))) == Ok(raw)
    ensures var reply := ReplyTo(env, s, raw, now, canOpen);
            reply.code == Successful && reply.payload == (if Lookup(s.keys, id).Some? then [1] else [0])
  {
    hide Serve, FrameRequest, FrameResponse, Refused, RequestFrame, ToBe, FromBe, Lookup, HandleGetEventList,
         HandleGetEventId, HandleQuerySpb, HandleLoad, HandleQueryAll, HandlePurgeId, HandlePurgeAll;
    var request := StandardRequest(LeKeyQueryId, requestId, ToBe(id, 4));
    RequestRoundTrip(request);
    FrameSize(request);
    raw := RequestFrame(request).value;
    Exchange(env, s, raw, now, canOpen);
    RefusedByRequest(env, s, raw, canOpen);
    OwnBytesU32(id);
  }

  /** After exchanges told as deeds, LEKeyQueryID for an id is answered 1 exactly when some
      accepted load of the id was kept, and 0 otherwise. */
  ghost predicate QueryTold(env: Env, run: Session, id: u32, raw: bytes, now: u64, canOpen: bool)
    requires |raw| < Klv.MAX_LENGTH
  {
    var reply := ReplyTo(env, run.store, raw, now, canOpen);
    && reply.code == Successful
    && (reply.payload == [1] || reply.payload == [0])
    && (reply.payload == [1] <==> exists i :: LoadedAndKept(Deeds(run.exchanges), i, id))
  }

  /** Over every run of the store in memory without restarts, and every run of the file-backed
      store with restarts in which no needed write fails, the answer to LEKeyQueryID is what
      the client could have worked out from the exchanges. */
  lemma {:induction false} QueryIdOverEveryRun(
    env: Env, s: Store, inputs: seq<Input>, id: u32, requestId: u32, now: u64, canOpen: bool) returns (raw: Message)
    requires requestId != 0
    requires (s == NEW_MEMORY && forall x :: x in inputs ==> x.Request?) || (s == NEW_JSONL && NoFailure(env, [], inputs))
    ensures Run(env, s, inputs).Ok?
    ensures RequestFrame(StandardRequest(LeKeyQueryId, requestId, ToBe(id, 4))) == Ok(raw)
    ensures QueryTold(env, Run(env, s, inputs).value, id, raw, now, canOpen)
  {
    if s == NEW_MEMORY {
      StoreIsClientView(env, inputs, id);
    } else {
      FileStoreIsClientView(env, inputs, id);
    }
    raw := QueryAnswersLookup(env, Run(env, s, inputs).value.store, id, requestId, now, canOpen);
  }
}
