/** The two key stores: one in memory, one that rewrites a file after every change. */
module KeyStores {
  import opened Prelude
  import opened KeyRecords
  import opened KeyList
  import opened TextNumbers
  import opened KeyFile

  // ---- Stores as values ----

  /** A store's records, and for a JSONL store the text of its file. */
  datatype Store = InMemory(keys: seq<LeKeyRecord>) | Jsonl(keys: seq<LeKeyRecord>, file: string)

  /** What an operation leaves behind, also when it throws. */
  datatype Outcome<+T> = Outcome(store: Store, result: Result<T>)

  /** Write the records out; `canOpen` says whether the file can be opened. */
  function Persisted(s: Store, canOpen: bool): Outcome<()> {
    match s
    case InMemory(_) => Outcome(s, Ok(()))
    case Jsonl(keys, _) =>
      if canOpen then Outcome(Jsonl(keys, PrintFile(keys)), Ok(()))
      else Outcome(s, Err("failed to persist LEKey JSONL store"))
  }

  /** `load_keys`: true reports an overflow. */
  function Load(s: Store, batch: seq<LeKeyRecord>, canOpen: bool): Outcome<bool> {
    if WouldOverflow(batch, s.keys) then Outcome(s, Ok(true))
    else
      var written := Persisted(s.(keys := LoadAll(s.keys, batch)), canOpen);
      Outcome(written.store, if written.result.Ok? then Ok(false) else Err(written.result.message))
  }

  /** `purge_key`: true reports that a record was removed. */
  function Purge(s: Store, id: u32, canOpen: bool): Outcome<bool> {
    var kept := Without(s.keys, id);
    if |kept| == |s.keys| then Outcome(s.(keys := kept), Ok(false))
    else
      var written := Persisted(s.(keys := kept), canOpen);
      Outcome(written.store, if written.result.Ok? then Ok(true) else Err(written.result.message))
  }

  function PurgeAll(s: Store, canOpen: bool): Outcome<()> {
    Persisted(s.(keys := []), canOpen)
  }

  /** The JSONL constructor on the text found on disk, if the file exists. */
  function Opened(disk: Option<string>, canOpen: bool): Result<Store> {
    match disk
    case None => if canOpen then Ok(Jsonl([], "")) else Err("failed to create LEKey JSONL store")
    case Some(text) =>
      if !canOpen then Err("failed to open LEKey JSONL store")
      else
        var keys :- ParseFile(text);
        Ok(Jsonl(keys, text))
  }

  /** The constructor fails exactly when the file cannot be opened or holds a line that is
      refused. A store it creates is empty, and opening the file of an opened store again
      gives the same store. */
  lemma {:induction false} OpenedIff(disk: Option<string>, canOpen: bool)
    ensures Opened(disk, canOpen).Ok? <==> canOpen && (disk.None? || ParseFile(disk.value).Ok?)
    ensures Opened(disk, canOpen).Ok? ==>
              var s := Opened(disk, canOpen).value;
              && s.Jsonl? && s.file == (if disk.Some? then disk.value else "")
              && (disk.None? ==> s.keys == [])
              && Opened(Some(s.file), true) == Ok(s)
  {
    FileRoundTrip([]);
  }

  // ---- The loops both stores share ----

  method CheckOverflow(incoming: seq<LeKeyRecord>, existing: seq<LeKeyRecord>, capacity: nat) returns (over: bool)
    ensures over <==> |existing| + NewCount(incoming, existing) > capacity
  {
    var uniqueCount := |existing|;
    for i := 0 to |incoming|
      invariant uniqueCount == |existing| + NewCount(incoming[..i], existing)
    {
      assert incoming[..i + 1][..i] == incoming[..i];
      if Find(existing, incoming[i].keyId, 0).None? {
        uniqueCount := uniqueCount + 1;
      }
    }
    assert incoming[..|incoming|] == incoming;
    over := uniqueCount > capacity;
  }

  method EraseIf(keys: seq<LeKeyRecord>, id: u32) returns (kept: seq<LeKeyRecord>)
    ensures kept == Without(keys, id)
  {
    kept := [];
    for i := 0 to |keys|
      invariant kept == Without(keys[..i], id)
    {
      assert keys[..i + 1][..i] == keys[..i];
      if keys[i].keyId != id {
        kept := kept + [keys[i]];
      }
    }
    assert keys[..|keys|] == keys;
  }

  method CollectIds(keys: seq<LeKeyRecord>) returns (ids: seq<u32>)
    ensures ids == Ids(keys)
  {
    ids := [];
    for i := 0 to |keys|
      invariant ids == Ids(keys[..i])
    {
      ids := ids + [keys[i].keyId];
    }
    assert keys[..|keys|] == keys;
  }

  // ---- The stores as objects ----

  class InMemoryLeKeyStore {
    var keys: seq<LeKeyRecord>

    ghost function View(): Store
      reads this
    {
      InMemory(keys)
    }

    constructor ()
      ensures View() == InMemory([])
    {
      keys := [];
    }

    method LoadKeys(batch: seq<LeKeyRecord>) returns (overflow: bool)
      modifies this
      ensures Outcome(View(), Ok(overflow)) == Load(old(View()), batch, true)
      ensures overflow <==> |old(keys)| + |NewPlaces(batch, old(keys))| > 16
      ensures !overflow ==> LoadedInOrder(old(keys), keys, batch)
    {
      hide NewPlaces, LoadedInOrder;
      OverflowIff(keys, batch);
      LoadKeepsOrder(keys, batch);
      var over := CheckOverflow(batch, keys, CAPACITY);
      if over {
        return true;
      }
      for i := 0 to |batch|
        invariant keys == LoadAll(old(keys), batch[..i])
      {
        assert batch[..i + 1][..i] == batch[..i];
        var found := Find(keys, batch[i].keyId, 0);
        if found.Some? {
          keys := keys[found.value := batch[i]];
        } else {
          keys := keys + [batch[i]];
        }
      }
      assert batch[..|batch|] == batch;
      overflow := false;
    }

    method ContainsKey(id: u32) returns (present: bool)
      ensures present <==> Lookup(keys, id).Some?
    {
      present := Find(keys, id, 0).Some?;
    }

    method ListKeyIds() returns (ids: seq<u32>)
      ensures ids == Ids(keys)
    {
      ids := CollectIds(keys);
    }

    method PurgeKey(id: u32) returns (removed: bool)
      modifies this
      ensures Outcome(View(), Ok(removed)) == Purge(old(View()), id, true)
      ensures PurgedInOrder(old(keys), keys, id)
    {
      PurgeKeepsOrder(keys, id);
      var before := |keys|;
      keys := EraseIf(keys, id);
      removed := |keys| != before;
    }

    method Clear()
      modifies this
      ensures View() == PurgeAll(old(View()), true).store
    {
      keys := [];
    }
  }

  class JsonlLeKeyStore {
    var keys: seq<LeKeyRecord>
    var file: string

    ghost function View(): Store
      reads this
    {
      Jsonl(keys, file)
    }

    constructor (keys: seq<LeKeyRecord>, file: string)
      ensures View() == Jsonl(keys, file)
    {
      this.keys := keys;
      this.file := file;
    }

    /** The constructor of the source, which may throw: read the file line by line. */
    static method Open(disk: Option<string>, canOpen: bool) returns (r: Result<JsonlLeKeyStore>)
      ensures r.Ok? ==> fresh(r.value) && Opened(disk, canOpen) == Ok(r.value.View())
      ensures r.Err? ==> Opened(disk, canOpen) == Err(r.message)
    {
      if disk.None? {
        if !canOpen {
          return Err("failed to create LEKey JSONL store");
        }
        var created := new JsonlLeKeyStore([], "");
        return Ok(created);
      }
      if !canOpen {
        return Err("failed to open LEKey JSONL store");
      }
      var parsed := ReadLines(disk.value);
      if parsed.Err? {
        return Err(parsed.message);
      }
      var store := new JsonlLeKeyStore(parsed.value, disk.value);
      r := Ok(store);
    }

    /** `std::getline` from a position: the line, and where the next one starts. */
    static method GetLine(text: string, position: nat) returns (line: string, next: nat)
      requires position < |text|
      ensures line == text[position..][..LineEnd(text[position..])]
      ensures next == if position + |line| < |text| then position + |line| + 1 else |text|
      ensures forall number: nat :: ParseLines(Lines(text[position..]), number)
                            == AddLine(line, number, ParseLines(Lines(text[next..]), number + 1))
    {
      ghost var rest := text[position..];
      var end := position;
      while end < |text| && text[end] != '\n'
        invariant position <= end <= |text|
        invariant forall i :: position <= i < end ==> text[i] != '\n'
      {
        end := end + 1;
      }
      LineEndIs(rest, end - position);
      line := text[position..end];
      next := if end < |text| then end + 1 else end;
      assert rest[..end - position] == line;
      forall number: nat
        ensures ParseLines(Lines(rest), number) == AddLine(line, number, ParseLines(Lines(text[next..]), number + 1))
      {
        FirstLineIs(rest, line, text[next..], number);
      }
    }

    static method ReadLines(text: string) returns (r: Result<seq<LeKeyRecord>>)
      ensures r == ParseFile(text)
    {
      var keys: seq<LeKeyRecord> := [];
      var position, lineNumber := 0, 0;
      PrependNothing(ParseFile(text));
      assert text[0..] == text;
      while position < |text|
        invariant position <= |text|
        invariant ParseFile(text) == Prepend(keys, ParseLines(Lines(text[position..]), lineNumber + 1))
        decreases |text| - position
      {
        var line, next := GetLine(text, position);
        lineNumber := lineNumber + 1;
        ghost var rest := ParseLines(Lines(text[next..]), lineNumber + 1);
        position := next;
        if line != "" {
          var parsed := ParseLine(line);
          if parsed.Err? {
            return Err(LineError(lineNumber, parsed.message));
          }
          PrependTwice(keys, [parsed.value], rest);
          keys := keys + [parsed.value];
        }
      }
      assert text[position..] == "" && keys + [] == keys;
      r := Ok(keys);
    }

    method Persist(canOpen: bool) returns (r: Result<()>)
      modifies this`file
      ensures Outcome(View(), r) == Persisted(old(View()), canOpen)
    {
      if !canOpen {
        return Err("failed to persist LEKey JSONL store");
      }
      file := "";
      for i := 0 to |keys|
        invariant file + PrintFile(keys[i..]) == PrintFile(keys)
      {
        PrintOneMore(file, keys, i);
        file := file + (PrintRecord(keys[i]) + "\n");
      }
      assert keys[|keys|..] == [] && file + "" == file;
      r := Ok(());
    }

    method LoadKeys(batch: seq<LeKeyRecord>, canOpen: bool) returns (r: Result<bool>)
      modifies this
      ensures Outcome(View(), r) == Load(old(View()), batch, canOpen)
      ensures r == Ok(true) <==> |old(keys)| + |NewPlaces(batch, old(keys))| > 16
      ensures r != Ok(true) ==> LoadedInOrder(old(keys), keys, batch)
    {
      hide NewPlaces, LoadedInOrder;
      OverflowIff(keys, batch);
      LoadKeepsOrder(keys, batch);
      var over := CheckOverflow(batch, keys, CAPACITY);
      if over {
        return Ok(true);
      }
      for i := 0 to |batch|
        invariant keys == LoadAll(old(keys), batch[..i]) && file == old(file)
      {
        assert batch[..i + 1][..i] == batch[..i];
        var found := Find(keys, batch[i].keyId, 0);
        if found.Some? {
          keys := keys[found.value := batch[i]];
        } else {
          keys := keys + [batch[i]];
        }
      }
      assert batch[..|batch|] == batch;
      var written := Persist(canOpen);
      r := if written.Ok? then Ok(false) else Err(written.message);
    }

    method ContainsKey(id: u32) returns (present: bool)
      ensures present <==> Lookup(keys, id).Some?
    {
      present := Find(keys, id, 0).Some?;
    }

    method ListKeyIds() returns (ids: seq<u32>)
      ensures ids == Ids(keys)
    {
      ids := CollectIds(keys);
    }

    method PurgeKey(id: u32, canOpen: bool) returns (r: Result<bool>)
      modifies this
      ensures Outcome(View(), r) == Purge(old(View()), id, canOpen)
      ensures PurgedInOrder(old(keys), keys, id)
    {
      PurgeKeepsOrder(keys, id);
      var before := |keys|;
      keys := EraseIf(keys, id);
      var removed := |keys| != before;
      if removed {
        var written := Persist(canOpen);
        if written.Err? {
          return Err(written.message);
        }
      }
      r := Ok(removed);
    }

    method Clear(canOpen: bool) returns (r: Result<()>)
      modifies this
      ensures Outcome(View(), r) == PurgeAll(old(View()), canOpen)
    {
      keys := [];
      r := Persist(canOpen);
    }
  }

  lemma {:induction false} PrependNothing(r: Result<seq<LeKeyRecord>>)
    ensures Prepend([], r) == r
  {
    assert r.Ok? ==> [] + r.value == r.value;
  }

  lemma {:induction false} PrependTwice(first: seq<LeKeyRecord>, second: seq<LeKeyRecord>, r: Result<seq<LeKeyRecord>>)
    ensures Prepend(first, Prepend(second, r)) == Prepend(first + second, r)
  {
    assert r.Ok? ==> first + (second + r.value) == (first + second) + r.value;
  }

  lemma {:induction false} PrintOneMore(before: string, keys: seq<LeKeyRecord>, i: nat)
    requires i < |keys|
    ensures before + PrintFile(keys[i..]) == (before + (PrintRecord(keys[i]) + "\n")) + PrintFile(keys[i + 1..])
  {
    assert keys[i..][0] == keys[i] && keys[i..][1..] == keys[i + 1..];
    Regroup(before, PrintRecord(keys[i]) + "\n", PrintFile(keys[i + 1..]));
  }

  lemma {:induction false} LineEndIs(text: string, n: nat)
    requires n <= |text| && (forall i :: 0 <= i < n ==> text[i] != '\n') && (n < |text| ==> text[n] == '\n')
    ensures LineEnd(text) == n
  {
  }

  lemma {:induction false} FirstLineIs(text: string, line: string, rest: string, number: nat)
    requires text != "" && line == text[..LineEnd(text)]
    requires rest == if LineEnd(text) < |text| then text[LineEnd(text) + 1..] else ""
    ensures Lines(text) == [line] + Lines(rest)
    ensures ParseLines(Lines(text), number) == AddLine(line, number, ParseLines(Lines(rest), number + 1))
  {
    assert ([line] + Lines(rest))[1..] == Lines(rest);
  }

  // ---- A reference to either store ----

  datatype StoreHandle = Memory(memory: InMemoryLeKeyStore) | Disk(disk: JsonlLeKeyStore) {

    ghost function Footprint(): set<object> {
      match this
      case Memory(m) => {m}
      case Disk(d) => {d}
    }

    ghost function View(): Store
      reads Footprint()
    {
      match this
      case Memory(m) => m.View()
      case Disk(d) => d.View()
    }

    method LoadKeys(batch: seq<LeKeyRecord>, canOpen: bool) returns (r: Result<bool>)
      modifies Footprint()
      ensures Outcome(View(), r) == Load(old(View()), batch, canOpen)
    {
      match this
      case Memory(m) =>
        var overflow := m.LoadKeys(batch);
        r := Ok(overflow);
      case Disk(d) => r := d.LoadKeys(batch, canOpen);
    }

    method ContainsKey(id: u32) returns (present: bool)
      ensures present <==> Lookup(View().keys, id).Some?
    {
      match this
      case Memory(m) => present := m.ContainsKey(id);
      case Disk(d) => present := d.ContainsKey(id);
    }

    method ListKeyIds() returns (ids: seq<u32>)
      ensures ids == Ids(View().keys)
    {
      match this
      case Memory(m) => ids := m.ListKeyIds();
      case Disk(d) => ids := d.ListKeyIds();
    }

    method PurgeKey(id: u32, canOpen: bool) returns (r: Result<bool>)
      modifies Footprint()
      ensures Outcome(View(), r) == Purge(old(View()), id, canOpen)
    {
      match this
      case Memory(m) =>
        var removed := m.PurgeKey(id);
        r := Ok(removed);
      case Disk(d) => r := d.PurgeKey(id, canOpen);
    }

    method Clear(canOpen: bool) returns (r: Result<()>)
      modifies Footprint()
      ensures Outcome(View(), r) == PurgeAll(old(View()), canOpen)
    {
      match this
      case Memory(m) =>
        m.Clear();
        r := Ok(());
      case Disk(d) => r := d.Clear(canOpen);
    }
  }
}
