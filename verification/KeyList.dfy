/** What the key stores compute: capacity pre-check, load, purge and lookup on record lists. */
module KeyList {
  import opened Prelude
  import opened KeyRecords

  const CAPACITY := 16

  function Ids(keys: seq<LeKeyRecord>): seq<u32> {
    seq(|keys|, i requires 0 <= i < |keys| => keys[i].keyId)
  }

  function IdSet(keys: seq<LeKeyRecord>): set<u32> {
    set i | 0 <= i < |keys| :: keys[i].keyId
  }

  predicate Distinct(keys: seq<LeKeyRecord>) {
    forall i, j :: 0 <= i < j < |keys| ==> keys[i].keyId != keys[j].keyId
  }

  /** `std::find_if` by key id, from position `i` on. */
  function Find(keys: seq<LeKeyRecord>, id: u32, i: nat): (r: Option<nat>)
    requires i <= |keys|
    ensures r.Some? ==> i <= r.value < |keys| && keys[r.value].keyId == id
                        && forall j :: i <= j < r.value ==> keys[j].keyId != id
    ensures r.None? ==> forall j :: i <= j < |keys| ==> keys[j].keyId != id
    decreases |keys| - i
  {
    if i == |keys| then None
    else if keys[i].keyId == id then Some(i)
    else Find(keys, id, i + 1)
  }

  /** The record a store holds under an id: the first one listed. */
  function Lookup(keys: seq<LeKeyRecord>, id: u32): Option<LeKeyRecord> {
    match Find(keys, id, 0)
    case Some(i) => Some(keys[i])
    case None => None
  }

  /** The batch entries whose id is not stored yet, a repeated new id counted every time. */
  function NewCount(incoming: seq<LeKeyRecord>, existing: seq<LeKeyRecord>): nat {
    if incoming == [] then 0
    else
      var last := |incoming| - 1;
      NewCount(incoming[..last], existing) + if Find(existing, incoming[last].keyId, 0).None? then 1 else 0
  }

  predicate WouldOverflow(incoming: seq<LeKeyRecord>, existing: seq<LeKeyRecord>) {
    |existing| + NewCount(incoming, existing) > CAPACITY
  }

  function Upsert(keys: seq<LeKeyRecord>, key: LeKeyRecord): seq<LeKeyRecord> {
    match Find(keys, key.keyId, 0)
    case Some(i) => keys[i := key]
    case None => keys + [key]
  }

  function LoadAll(keys: seq<LeKeyRecord>, batch: seq<LeKeyRecord>): seq<LeKeyRecord> {
    if batch == [] then keys
    else Upsert(LoadAll(keys, batch[..|batch| - 1]), batch[|batch| - 1])
  }

  function Without(keys: seq<LeKeyRecord>, id: u32): seq<LeKeyRecord> {
    if keys == [] then []
    else
      var last := |keys| - 1;
      Without(keys[..last], id) + if keys[last].keyId == id then [] else [keys[last]]
  }

  // ---- Load is an ordered merge in which the batch wins ----

  /** The last entry of the batch for an id. */
  function LastIn(batch: seq<LeKeyRecord>, id: u32): Option<LeKeyRecord> {
    if batch == [] then None
    else if batch[|batch| - 1].keyId == id then Some(batch[|batch| - 1])
    else LastIn(batch[..|batch| - 1], id)
  }

  lemma {:induction false} LastId(keys: seq<LeKeyRecord>)
    requires keys != []
    ensures IdSet(keys) == IdSet(keys[..|keys| - 1]) + {keys[|keys| - 1].keyId}
  {
    assert IdSet(keys[..|keys| - 1]) <= IdSet(keys);
  }

  predicate IsLastWith(batch: seq<LeKeyRecord>, id: u32, i: nat) {
    && i < |batch| && batch[i].keyId == id
    && forall j :: i < j < |batch| ==> batch[j].keyId != id
  }

  lemma {:induction false} LastOfAll(batch: seq<LeKeyRecord>)
    requires batch != []
    ensures IsLastWith(batch, batch[|batch| - 1].keyId, |batch| - 1)
  {
  }

  lemma {:induction false} StaysLast(batch: seq<LeKeyRecord>, id: u32, i: nat)
    requires batch != [] && batch[|batch| - 1].keyId != id && IsLastWith(batch[..|batch| - 1], id, i)
    ensures IsLastWith(batch, id, i) && batch[i] == batch[..|batch| - 1][i]
  {
    assert forall j :: 0 <= j < |batch| - 1 ==> batch[j] == batch[..|batch| - 1][j];
  }

  lemma {:induction false} LastInIsLast(batch: seq<LeKeyRecord>, id: u32)
    ensures LastIn(batch, id).Some? <==> id in IdSet(batch)
    ensures LastIn(batch, id).Some? ==> exists i: nat :: IsLastWith(batch, id, i) && batch[i] == LastIn(batch, id).value
  {
    if batch != [] {
      var last := |batch| - 1;
      LastInIsLast(batch[..last], id);
      LastId(batch);
      hide IdSet, IsLastWith;
      if batch[last].keyId == id {
        LastOfAll(batch);
        assert IsLastWith(batch, id, last);
      } else if LastIn(batch[..last], id).Some? {
        var i: nat :| IsLastWith(batch[..last], id, i) && batch[..last][i] == LastIn(batch[..last], id).value;
        StaysLast(batch, id, i);
      }
    }
  }

  /** The ids a batch adds to a store, in the order in which they first occur in the batch. */
  function Added(batch: seq<LeKeyRecord>, keys: seq<LeKeyRecord>): seq<u32> {
    if batch == [] then []
    else
      var before, id := Added(batch[..|batch| - 1], keys), batch[|batch| - 1].keyId;
      if id in Ids(keys) || id in before then before else before + [id]
  }

  lemma {:induction false} AddedIsNew(batch: seq<LeKeyRecord>, keys: seq<LeKeyRecord>, id: u32)
    ensures id in Added(batch, keys) <==> id in IdSet(batch) && id !in Ids(keys)
  {
    if batch != [] {
      var last := |batch| - 1;
      AddedIsNew(batch[..last], keys, id);
      AddedIsNew(batch[..last], keys, batch[last].keyId);
      LastId(batch);
    }
  }

  /** Of two added ids, the one listed first occurs in the batch before the other does. */
  lemma {:induction false} AddedInFirstOccurrenceOrder(batch: seq<LeKeyRecord>, keys: seq<LeKeyRecord>, a: nat, b: nat)
    returns (i: nat)
    requires a < b < |Added(batch, keys)|
    ensures i < |batch| && batch[i].keyId == Added(batch, keys)[a]
    ensures Added(batch, keys)[b] !in IdSet(batch[..i + 1])
  {
    var last := |batch| - 1;
    var prefix, added := batch[..last], Added(batch, keys);
    if b < |Added(prefix, keys)| {
      i := AddedInFirstOccurrenceOrder(prefix, keys, a, b);
      assert prefix[..i + 1] == batch[..i + 1];
    } else {
      assert added[a] == Added(prefix, keys)[a];
      AddedIsNew(prefix, keys, added[a]);
      AddedIsNew(prefix, keys, added[b]);
      i :| 0 <= i < |prefix| && prefix[i].keyId == added[a];
      assert IdSet(batch[..i + 1]) <= IdSet(prefix);
    }
  }

  lemma {:induction false} FoundAt(keys: seq<LeKeyRecord>, id: u32, i: nat)
    requires i < |keys| && keys[i].keyId == id && forall j :: 0 <= j < i ==> keys[j].keyId != id
    ensures Find(keys, id, 0) == Some(i) && Lookup(keys, id) == Some(keys[i])
  {
  }

  lemma {:induction false} NotFound(keys: seq<LeKeyRecord>, id: u32)
    requires id !in Ids(keys)
    ensures Find(keys, id, 0) == None && Lookup(keys, id) == None
  {
    assert forall i :: 0 <= i < |keys| ==> keys[i].keyId == Ids(keys)[i];
  }

  lemma {:induction false} Found(keys: seq<LeKeyRecord>, id: u32)
    requires id in Ids(keys)
    ensures Find(keys, id, 0).Some? && Lookup(keys, id).Some?
  {
    var i :| 0 <= i < |keys| && Ids(keys)[i] == id;
    assert keys[i].keyId == id;
  }

  /** Records appended or replaced in place do not move the first match of a stored id. */
  lemma {:induction false} SameFind(before: seq<LeKeyRecord>, after: seq<LeKeyRecord>, id: u32)
    requires |before| <= |after| && forall i :: 0 <= i < |before| ==> after[i].keyId == before[i].keyId
    requires Find(before, id, 0).Some?
    ensures Find(after, id, 0) == Find(before, id, 0)
  {
    FoundAt(after, id, Find(before, id, 0).value);
  }

  lemma {:induction false} UpsertIds(keys: seq<LeKeyRecord>, key: LeKeyRecord)
    ensures Ids(Upsert(keys, key)) == if key.keyId in Ids(keys) then Ids(keys) else Ids(keys) + [key.keyId]
  {
    if key.keyId in Ids(keys) {
      Found(keys, key.keyId);
    } else {
      NotFound(keys, key.keyId);
    }
  }

  /** Stored ids keep their positions; the added ids follow. */
  lemma {:induction false} LoadedIdOrder(keys: seq<LeKeyRecord>, batch: seq<LeKeyRecord>)
    ensures Ids(LoadAll(keys, batch)) == Ids(keys) + Added(batch, keys)
    ensures |LoadAll(keys, batch)| == |keys| + |Added(batch, keys)|
  {
    if batch != [] {
      var last := |batch| - 1;
      LoadedIdOrder(keys, batch[..last]);
      UpsertIds(LoadAll(keys, batch[..last]), batch[last]);
    }
    assert |Ids(LoadAll(keys, batch))| == |LoadAll(keys, batch)|;
  }

  /** The record at a position is the batch's last entry for its id, or the old record if the
      batch does not name the id. (Where a foreign file repeats an id, the first one counts.) */
  lemma {:induction false} LoadedRecords(keys: seq<LeKeyRecord>, batch: seq<LeKeyRecord>, i: nat)
    requires i < |LoadAll(keys, batch)|
    ensures var id := LoadAll(keys, batch)[i].keyId;
            if LastIn(batch, id).Some? && Find(LoadAll(keys, batch), id, 0) == Some(i)
            then LoadAll(keys, batch)[i] == LastIn(batch, id).value
            else i < |keys| && LoadAll(keys, batch)[i] == keys[i]
  {
    if batch != [] {
      var prefix, key := batch[..|batch| - 1], batch[|batch| - 1];
      var before, after := LoadAll(keys, prefix), LoadAll(keys, batch);
      if i < |before| {
        LoadedRecords(keys, prefix, i);
        assert after[i].keyId == before[i].keyId;
        SameFind(before, after, after[i].keyId);
      }
    }
  }

  /** What a load leaves: the stored ids in place, the added ids behind them, and at each
      position the batch's last record for its id, or the old one. */
  predicate LoadedInOrder(before: seq<LeKeyRecord>, after: seq<LeKeyRecord>, batch: seq<LeKeyRecord>) {
    && Ids(after) == Ids(before) + Added(batch, before)
    && forall i :: 0 <= i < |after| ==>
         var last := LastIn(batch, after[i].keyId);
         if last.Some? && Find(after, after[i].keyId, 0) == Some(i) then after[i] == last.value
         else i < |before| && after[i] == before[i]
  }

  lemma {:induction false} LoadKeepsOrder(keys: seq<LeKeyRecord>, batch: seq<LeKeyRecord>)
    ensures LoadedInOrder(keys, LoadAll(keys, batch), batch)
  {
    LoadedIdOrder(keys, batch);
    forall i: nat | i < |LoadAll(keys, batch)|
      ensures var after, last := LoadAll(keys, batch), LastIn(batch, LoadAll(keys, batch)[i].keyId);
              if last.Some? && Find(after, after[i].keyId, 0) == Some(i) then after[i] == last.value
              else i < |keys| && after[i] == keys[i]
    {
      LoadedRecords(keys, batch, i);
    }
  }

  lemma {:induction false} UpsertUpdatesMap(keys: seq<LeKeyRecord>, key: LeKeyRecord, id: u32)
    ensures Lookup(Upsert(keys, key), id) == if key.keyId == id then Some(key) else Lookup(keys, id)
  {
    var after := Upsert(keys, key);
    if Find(keys, id, 0).Some? {
      SameFind(keys, after, id);
    } else if key.keyId == id {
      FoundAt(after, id, |keys|);
    }
  }

  /** As a map from ids to records, a load is an update that prefers the batch. */
  lemma {:induction false} LoadUpdatesMap(keys: seq<LeKeyRecord>, batch: seq<LeKeyRecord>, id: u32)
    ensures Lookup(LoadAll(keys, batch), id)
         == if LastIn(batch, id).Some? then LastIn(batch, id) else Lookup(keys, id)
  {
    if batch != [] {
      var last := |batch| - 1;
      LoadUpdatesMap(keys, batch[..last], id);
      UpsertUpdatesMap(LoadAll(keys, batch[..last]), batch[last], id);
    }
  }

  /** A load changes nothing exactly when the store already holds the batch's last entry for
      each id of the batch. */
  lemma {:induction false} LoadChangesNothingIff(keys: seq<LeKeyRecord>, batch: seq<LeKeyRecord>)
    ensures LoadAll(keys, batch) == keys
       <==> forall i :: 0 <= i < |batch| ==> Lookup(keys, batch[i].keyId) == LastIn(batch, batch[i].keyId)
  {
    forall i | 0 <= i < |batch|
      ensures LastIn(batch, batch[i].keyId).Some?
      ensures Lookup(LoadAll(keys, batch), batch[i].keyId) == LastIn(batch, batch[i].keyId)
    {
      LastInIsLast(batch, batch[i].keyId);
      LoadUpdatesMap(keys, batch, batch[i].keyId);
    }
    if forall i :: 0 <= i < |batch| ==> Lookup(keys, batch[i].keyId) == LastIn(batch, batch[i].keyId) {
      AllHeldChangesNothing(keys, batch);
    }
  }

  lemma {:induction false} AllHeldChangesNothing(keys: seq<LeKeyRecord>, batch: seq<LeKeyRecord>)
    requires forall i :: 0 <= i < |batch| ==>
               LastIn(batch, batch[i].keyId).Some? && Lookup(keys, batch[i].keyId) == LastIn(batch, batch[i].keyId)
    ensures LoadAll(keys, batch) == keys
  {
    var after := LoadAll(keys, batch);
    LoadedIdOrder(keys, batch);
    if Added(batch, keys) != [] {
      var id := Added(batch, keys)[0];
      AddedIsNew(batch, keys, id);
      NotFound(keys, id);
      assert false;
    }
    assert forall i :: 0 <= i < |keys| ==> after[i].keyId == Ids(after)[i] == Ids(keys)[i] == keys[i].keyId;
    forall i | 0 <= i < |keys|
      ensures after[i] == keys[i]
    {
      HeldRecordStays(keys, batch, i);
    }
  }

  lemma {:induction false} HeldRecordStays(keys: seq<LeKeyRecord>, batch: seq<LeKeyRecord>, i: nat)
    requires i < |keys| == |LoadAll(keys, batch)|
    requires forall j :: 0 <= j < |keys| ==> LoadAll(keys, batch)[j].keyId == keys[j].keyId
    requires forall j :: 0 <= j < |batch| ==> Lookup(keys, batch[j].keyId) == LastIn(batch, batch[j].keyId)
    ensures LoadAll(keys, batch)[i] == keys[i]
  {
    var after, id := LoadAll(keys, batch), keys[i].keyId;
    LoadedRecords(keys, batch, i);
    LastInIsLast(batch, id);
    if id in IdSet(batch) && Find(after, id, 0) == Some(i) {
      FoundAt(keys, id, i);
      var j :| 0 <= j < |batch| && batch[j].keyId == id;
      assert Lookup(keys, batch[j].keyId) == LastIn(batch, batch[j].keyId);
    }
  }

  lemma {:induction false} LoadKeepsDistinct(keys: seq<LeKeyRecord>, batch: seq<LeKeyRecord>)
    requires Distinct(keys)
    ensures Distinct(LoadAll(keys, batch))
  {
    if batch != [] {
      LoadKeepsDistinct(keys, batch[..|batch| - 1]);
    }
  }

  // ---- Purge ----

  lemma {:induction false} AppendUpdatesMap(keys: seq<LeKeyRecord>, key: LeKeyRecord, id: u32)
    ensures Lookup(keys + [key], id)
         == if Lookup(keys, id).Some? then Lookup(keys, id) else if key.keyId == id then Some(key) else None
  {
    if Find(keys, id, 0).Some? {
      SameFind(keys, keys + [key], id);
    } else if key.keyId == id {
      FoundAt(keys + [key], id, |keys|);
    }
  }

  /** As a map from ids to records, a purge removes the id and touches no other. */
  lemma {:induction false} PurgeUpdatesMap(keys: seq<LeKeyRecord>, id: u32, other: u32)
    ensures Lookup(Without(keys, id), other) == if other == id then None else Lookup(keys, other)
  {
    if keys != [] {
      var last := |keys| - 1;
      PurgeUpdatesMap(keys[..last], id, other);
      AppendUpdatesMap(keys[..last], keys[last], other);
      AppendUpdatesMap(Without(keys[..last], id), keys[last], other);
      assert keys == keys[..last] + [keys[last]];
      assert Without(keys[..last], id) + [] == Without(keys[..last], id);
    }
  }

  /** The list gets shorter exactly when the id was stored; otherwise nothing changes. */
  lemma {:induction false} PurgeRemoves(keys: seq<LeKeyRecord>, id: u32)
    ensures |Without(keys, id)| <= |keys|
    ensures |Without(keys, id)| != |keys| <==> Lookup(keys, id).Some?
    ensures Lookup(keys, id).None? ==> Without(keys, id) == keys
  {
    if keys != [] {
      var last := |keys| - 1;
      PurgeRemoves(keys[..last], id);
      AppendUpdatesMap(keys[..last], keys[last], id);
      assert keys == keys[..last] + [keys[last]];
    }
  }

  /** What is left after a purge, with the position each record had: increasing positions, all
      those of records with other ids and no more. */
  predicate KeptAt(before: seq<LeKeyRecord>, after: seq<LeKeyRecord>, id: u32, at: seq<nat>) {
    && |at| == |after|
    && (forall i :: 0 <= i < |at| ==> at[i] < |before| && after[i] == before[at[i]])
    && (forall i, j :: 0 <= i < j < |at| ==> at[i] < at[j])
    && (forall k: nat :: k < |before| ==> (before[k].keyId != id <==> k in at))
  }

  ghost predicate PurgedInOrder(before: seq<LeKeyRecord>, after: seq<LeKeyRecord>, id: u32) {
    exists at: seq<nat> :: KeptAt(before, after, id, at)
  }

  lemma {:induction false} OneDropped(
    before: seq<LeKeyRecord>, after: seq<LeKeyRecord>, id: u32, at: seq<nat>, key: LeKeyRecord)
    requires KeptAt(before, after, id, at) && key.keyId == id
    ensures KeptAt(before + [key], after, id, at)
  {
    assert |before| !in at;
  }

  lemma {:induction false} OneKept(
    before: seq<LeKeyRecord>, after: seq<LeKeyRecord>, id: u32, at: seq<nat>, key: LeKeyRecord)
    requires KeptAt(before, after, id, at) && key.keyId != id
    ensures KeptAt(before + [key], after + [key], id, at + [|before|])
  {
    forall k: nat | k < |before| + 1
      ensures (before + [key])[k].keyId != id <==> k in at + [|before|]
    {
    }
  }

  lemma {:induction false} NothingKept(id: u32)
    ensures KeptAt([], [], id, [])
  {
  }

  lemma {:induction false} PlacesKept(keys: seq<LeKeyRecord>, id: u32) returns (at: seq<nat>)
    ensures KeptAt(keys, Without(keys, id), id, at)
  {
    hide KeptAt;
    if keys == [] {
      NothingKept(id);
      at := [];
    } else {
      var last := |keys| - 1;
      at := PlacesKept(keys[..last], id);
      assert keys == keys[..last] + [keys[last]];
      if keys[last].keyId == id {
        assert Without(keys, id) == Without(keys[..last], id);
        OneDropped(keys[..last], Without(keys[..last], id), id, at, keys[last]);
      } else {
        OneKept(keys[..last], Without(keys[..last], id), id, at, keys[last]);
        at := at + [last];
      }
    }
  }

  /** Every record with another id is kept, once and in its order. */
  lemma {:induction false} PurgeKeepsOrder(keys: seq<LeKeyRecord>, id: u32)
    ensures PurgedInOrder(keys, Without(keys, id), id)
  {
    var at := PlacesKept(keys, id);
  }

  lemma {:induction false} PurgeKeepsOthers(keys: seq<LeKeyRecord>, id: u32)
    ensures forall key :: key in Without(keys, id) <==> key in keys && key.keyId != id
    ensures Distinct(keys) ==> Distinct(Without(keys, id))
  {
    if keys != [] {
      var last := |keys| - 1;
      PurgeKeepsOthers(keys[..last], id);
      assert keys == keys[..last] + [keys[last]];
      var kept := Without(keys[..last], id);
      if Distinct(keys) && keys[last].keyId != id {
        forall i | 0 <= i < |kept|
          ensures kept[i].keyId != keys[last].keyId
        {
          assert kept[i] in keys[..last];
        }
      }
    }
  }

  // ---- The capacity pre-check ----

  lemma {:induction false} AddedAtMostCounted(batch: seq<LeKeyRecord>, keys: seq<LeKeyRecord>)
    ensures |Added(batch, keys)| <= NewCount(batch, keys)
  {
    if batch != [] {
      AddedAtMostCounted(batch[..|batch| - 1], keys);
      var id := batch[|batch| - 1].keyId;
      if Find(keys, id, 0).Some? {
        assert Ids(keys)[Find(keys, id, 0).value] == id;
      }
    }
  }

  /** The places of a batch whose id is not stored. */
  function NewPlaces(batch: seq<LeKeyRecord>, keys: seq<LeKeyRecord>): set<nat> {
    set i | 0 <= i < |batch| && batch[i].keyId !in IdSet(keys)
  }

  lemma {:induction false} FindsStored(keys: seq<LeKeyRecord>, id: u32)
    ensures Find(keys, id, 0).Some? <==> id in IdSet(keys)
  {
    if Find(keys, id, 0).Some? {
      assert keys[Find(keys, id, 0).value].keyId == id;
    }
  }

  lemma {:induction false} CountedPlaces(batch: seq<LeKeyRecord>, keys: seq<LeKeyRecord>)
    ensures NewCount(batch, keys) == |NewPlaces(batch, keys)|
  {
    if batch == [] {
      assert NewPlaces(batch, keys) == {};
    } else {
      var last := |batch| - 1;
      CountedPlaces(batch[..last], keys);
      FindsStored(keys, batch[last].keyId);
      hide IdSet;
      var before, here := NewPlaces(batch[..last], keys), if batch[last].keyId in IdSet(keys) then {} else {last};
      assert NewPlaces(batch, keys) == before + here && last !in before;
    }
  }

  /** A batch is refused exactly when the stored keys and the batch entries for ids that are
      not stored, repeats included, are more than 16 together. */
  lemma {:induction false} OverflowIff(keys: seq<LeKeyRecord>, batch: seq<LeKeyRecord>)
    ensures WouldOverflow(batch, keys) <==> |keys| + |NewPlaces(batch, keys)| > 16
  {
    CountedPlaces(batch, keys);
  }

  /** An empty store refuses exactly the batches of more than 16 entries, and takes a batch of
      distinct ids whole. */
  lemma {:induction false} EmptyStoreTakes(batch: seq<LeKeyRecord>)
    ensures WouldOverflow(batch, []) <==> |batch| > 16
    ensures Distinct(batch) ==> |LoadAll([], batch)| == |batch|
  {
    assert IdSet([]) == {};
    AllNew(batch, []);
    if Distinct(batch) {
      CountedIsAdded(batch, []);
      LoadedIdOrder([], batch);
    }
  }

  /** A load that passes the pre-check fits, for every store and every batch. */
  lemma {:induction false} PreCheckSound(keys: seq<LeKeyRecord>, batch: seq<LeKeyRecord>)
    requires !WouldOverflow(batch, keys)
    ensures |LoadAll(keys, batch)| <= 16
  {
    LoadedIdOrder(keys, batch);
    AddedAtMostCounted(batch, keys);
  }

  lemma {:induction false} DistinctGrows(keys: seq<LeKeyRecord>)
    requires keys != []
    ensures var prefix := keys[..|keys| - 1];
            Distinct(keys) <==> Distinct(prefix) && keys[|keys| - 1].keyId !in IdSet(prefix)
  {
    var last := |keys| - 1;
    assert forall i :: 0 <= i < last ==> keys[i] == keys[..last][i];
    if keys[last].keyId in IdSet(keys[..last]) {
      var i :| 0 <= i < last && keys[..last][i].keyId == keys[last].keyId;
      assert keys[i].keyId == keys[last].keyId;
    }
  }

  lemma {:induction false} IdSetSize(keys: seq<LeKeyRecord>)
    ensures |IdSet(keys)| <= |keys|
    ensures |IdSet(keys)| == |keys| <==> Distinct(keys)
  {
    if keys == [] {
      assert IdSet(keys) == {};
    } else {
      var last := |keys| - 1;
      var prefix, id := keys[..last], keys[last].keyId;
      IdSetSize(prefix);
      LastId(keys);
      DistinctGrows(keys);
      hide IdSet, Distinct;
      assert id in IdSet(prefix) ==> IdSet(keys) == IdSet(prefix);
    }
  }

  lemma {:induction false} IdListSet(keys: seq<LeKeyRecord>, id: u32)
    ensures id in IdSet(keys) <==> id in Ids(keys)
  {
    if id in Ids(keys) {
      var i :| 0 <= i < |keys| && Ids(keys)[i] == id;
      assert keys[i].keyId == id;
    }
    if id in IdSet(keys) {
      var i :| 0 <= i < |keys| && keys[i].keyId == id;
      assert Ids(keys)[i] == id;
    }
  }

  /** After a load the store holds the union of the ids. */
  lemma {:induction false} LoadedIds(keys: seq<LeKeyRecord>, batch: seq<LeKeyRecord>)
    ensures IdSet(LoadAll(keys, batch)) == IdSet(keys) + IdSet(batch)
  {
    LoadedIdOrder(keys, batch);
    var after := LoadAll(keys, batch);
    forall id: u32
      ensures id in IdSet(after) <==> id in IdSet(keys) + IdSet(batch)
    {
      AddedIsNew(batch, keys, id);
      IdListSet(keys, id);
      IdListSet(after, id);
    }
  }

  /** Does the pre-check reject a batch exactly when the union of ids is over capacity? */
  predicate PreCheckExact(keys: seq<LeKeyRecord>, batch: seq<LeKeyRecord>) {
    WouldOverflow(batch, keys) <==> |IdSet(keys) + IdSet(batch)| > 16
  }

  lemma {:induction false} CountedIsAdded(batch: seq<LeKeyRecord>, keys: seq<LeKeyRecord>)
    requires Distinct(batch)
    ensures |Added(batch, keys)| == NewCount(batch, keys)
  {
    if batch != [] {
      var last := |batch| - 1;
      var prefix, id := batch[..last], batch[last].keyId;
      CountedIsAdded(prefix, keys);
      AddedIsNew(prefix, keys, id);
      if Find(keys, id, 0).Some? {
        assert Ids(keys)[Find(keys, id, 0).value] == id;
      }
    }
  }

  lemma {:induction false} UnionSize(keys: seq<LeKeyRecord>, batch: seq<LeKeyRecord>)
    requires Distinct(keys)
    ensures |IdSet(keys) + IdSet(batch)| == |keys| + |Added(batch, keys)|
  {
    LoadedIds(keys, batch);
    LoadKeepsDistinct(keys, batch);
    IdSetSize(LoadAll(keys, batch));
    LoadedIdOrder(keys, batch);
  }

  lemma {:induction false} OneMore(a: set<u32>, b: set<u32>, id: u32)
    ensures |(a + {id}) - b| == |a - b| + if id in b + a then 0 else 1
  {
    if id in b || id in a {
      assert (a + {id}) - b == a - b;
    } else {
      assert (a + {id}) - b == (a - b) + {id};
    }
  }

  lemma {:induction false} LastAdded(batch: seq<LeKeyRecord>, keys: seq<LeKeyRecord>)
    requires batch != []
    ensures var prefix, id := batch[..|batch| - 1], batch[|batch| - 1].keyId;
            |Added(batch, keys)| == |Added(prefix, keys)| + if id in IdSet(keys) + IdSet(prefix) then 0 else 1
  {
    var prefix, id := batch[..|batch| - 1], batch[|batch| - 1].keyId;
    AddedIsNew(prefix, keys, id);
    IdListSet(keys, id);
  }

  /** The added ids are as many as the batch has ids that are not stored. */
  lemma {:induction false} AddedSize(batch: seq<LeKeyRecord>, keys: seq<LeKeyRecord>)
    ensures |Added(batch, keys)| == |IdSet(batch) - IdSet(keys)|
  {
    if batch == [] {
      assert IdSet(batch) == {};
    } else {
      var last := |batch| - 1;
      var prefix, id := batch[..last], batch[last].keyId;
      AddedSize(prefix, keys);
      LastAdded(batch, keys);
      LastId(batch);
      OneMore(IdSet(prefix), IdSet(keys), id);
    }
  }

  /** For one store and one batch the pre-check is exact unless the new ids fit in the free
      places while their entries, counted with repeats, do not. */
  lemma {:induction false} PreCheckExactHere(keys: seq<LeKeyRecord>, batch: seq<LeKeyRecord>)
    requires Distinct(keys)
    ensures PreCheckExact(keys, batch)
       <==> |NewPlaces(batch, keys)| <= 16 - |keys| || |IdSet(batch) - IdSet(keys)| > 16 - |keys|
  {
    CountedPlaces(batch, keys);
    UnionSize(keys, batch);
    AddedAtMostCounted(batch, keys);
    AddedSize(batch, keys);
  }

  lemma {:induction false} SubsetSize(a: set<u32>, b: set<u32>)
    requires a <= b
    ensures |a| <= |b|
  {
    assert b == a + (b - a);
  }

  lemma {:induction false} AllNew(batch: seq<LeKeyRecord>, keys: seq<LeKeyRecord>)
    requires IdSet(batch) !! IdSet(keys)
    ensures NewCount(batch, keys) == |batch|
  {
    if batch != [] {
      var last := |batch| - 1;
      assert batch[last].keyId in IdSet(batch);
      assert IdSet(batch[..last]) <= IdSet(batch);
      AllNew(batch[..last], keys);
    }
  }

  /** A store of `n` distinct keys below `bound` that avoids some ids. */
  lemma {:induction false} StoreAvoiding(avoid: set<u32>, n: nat, bound: u32) returns (keys: seq<LeKeyRecord>)
    requires |avoid| + n <= bound
    ensures |keys| == n && Distinct(keys)
    ensures forall i :: 0 <= i < n ==> keys[i].keyId < bound && keys[i].keyId !in avoid
    decreases bound
  {
    if n == 0 {
      keys := [];
    } else {
      var id: u32 := bound - 1;
      if id in avoid {
        keys := StoreAvoiding(avoid - {id}, n, id);
      } else {
        keys := StoreAvoiding(avoid, n - 1, id);
        keys := keys + [LeKeyRecord(id, seq(16, _ => 0), 0, 0)];
      }
    }
  }

  /** The pre-check is exact on every store with distinct ids if and only if the batch repeats
      no id (as section 8.1 demands of it) or alone names more ids than fit. */
  lemma {:induction false} PreCheckExactIff(batch: seq<LeKeyRecord>)
    ensures (forall keys :: Distinct(keys) ==> PreCheckExact(keys, batch))
       <==> Distinct(batch) || |IdSet(batch)| > 16
  {
    IdSetSize(batch);
    if Distinct(batch) || |IdSet(batch)| > 16 {
      forall keys | Distinct(keys)
        ensures PreCheckExact(keys, batch)
      {
        UnionSize(keys, batch);
        AddedAtMostCounted(batch, keys);
        if Distinct(batch) {
          CountedIsAdded(batch, keys);
        } else {
          SubsetSize(IdSet(batch), IdSet(keys) + IdSet(batch));
        }
      }
    } else {
      var room := CAPACITY - |IdSet(batch)|;
      var keys := StoreAvoiding(IdSet(batch), room, CAPACITY);
      assert IdSet(batch) !! IdSet(keys);
      AllNew(batch, keys);
      IdSetSize(keys);
      assert |IdSet(keys) + IdSet(batch)| == |IdSet(keys)| + |IdSet(batch)|;
      assert !PreCheckExact(keys, batch);
    }
  }
}
