/** What a list of answered key commands says about one key id. */
module History {
  import opened Prelude
  import opened KeyRecords
  import opened KeyList

  /** What an answered command did to the keys. */
  datatype Deed = Nothing | Loaded(batch: seq<LeKeyRecord>) | PurgedId(id: u32) | PurgedAll

  /** The record an accepted load put under an id: the batch's last entry for it. */
  function Gives(d: Deed, id: u32): Option<LeKeyRecord> {
    if d.Loaded? then LastIn(d.batch, id) else None
  }

  predicate Takes(d: Deed, id: u32) {
    d.PurgedAll? || d == PurgedId(id)
  }

  function Effect(d: Deed, id: u32, before: Option<LeKeyRecord>): Option<LeKeyRecord> {
    if Gives(d, id).Some? then Gives(d, id) else if Takes(d, id) then None else before
  }

  function Known(ds: seq<Deed>, id: u32, before: Option<LeKeyRecord>): Option<LeKeyRecord> {
    if ds == [] then before else Known(ds[1..], id, Effect(ds[0], id, before))
  }

  lemma {:induction false} LastDeed(ds: seq<Deed>, id: u32, before: Option<LeKeyRecord>)
    requires ds != []
    ensures Known(ds, id, before) == Effect(ds[|ds| - 1], id, Known(ds[..|ds| - 1], id, before))
  {
    if |ds| > 1 {
      LastDeed(ds[1..], id, Effect(ds[0], id, before));
      assert ds[1..][..|ds| - 2] == ds[..|ds| - 1][1..];
    }
  }

  /** Deed `i` loaded the id and no later one purged it. */
  predicate LoadedAndKept(ds: seq<Deed>, i: nat, id: u32) {
    && i < |ds| && Gives(ds[i], id).Some?
    && forall j :: i < j < |ds| ==> !Takes(ds[j], id)
  }

  /** Deed `i` loaded the id and no later one purged it or loaded it again. */
  predicate LastLoad(ds: seq<Deed>, i: nat, id: u32) {
    && LoadedAndKept(ds, i, id)
    && forall j :: i < j < |ds| ==> Gives(ds[j], id).None?
  }

  lemma {:induction false} KeptLonger(ds: seq<Deed>, i: nat, id: u32)
    requires ds != [] && !Takes(ds[|ds| - 1], id) && i < |ds| - 1
    ensures LoadedAndKept(ds, i, id) <==> LoadedAndKept(ds[..|ds| - 1], i, id)
    ensures Gives(ds[|ds| - 1], id).None? && LastLoad(ds[..|ds| - 1], i, id) ==> LastLoad(ds, i, id)
  {
    var prefix := ds[..|ds| - 1];
    assert forall j :: 0 <= j < |prefix| ==> prefix[j] == ds[j];
  }

  /** An id is known exactly when some load contained it and nothing later purged it; what is
      known is what the last such load gave. */
  lemma {:induction false} KnownIff(ds: seq<Deed>, id: u32)
    ensures Known(ds, id, None).Some? <==> exists i :: LoadedAndKept(ds, i, id)
    ensures Known(ds, id, None).Some? ==> exists i: nat :: LastLoad(ds, i, id) && Gives(ds[i], id) == Known(ds, id, None)
  {
    if ds != [] {
      var last := |ds| - 1;
      var prefix := ds[..last];
      KnownIff(prefix, id);
      LastDeed(ds, id, None);
      if Gives(ds[last], id).Some? {
        assert LoadedAndKept(ds, last, id) && LastLoad(ds, last, id);
      } else if !Takes(ds[last], id) {
        forall i: nat | i < last
          ensures LoadedAndKept(ds, i, id) <==> LoadedAndKept(prefix, i, id)
          ensures LastLoad(prefix, i, id) ==> LastLoad(ds, i, id)
        {
          KeptLonger(ds, i, id);
        }
        if Known(prefix, id, None).Some? {
          var i: nat :| LastLoad(prefix, i, id) && Gives(prefix[i], id) == Known(prefix, id, None);
          assert LastLoad(ds, i, id) && Gives(ds[i], id) == Known(ds, id, None);
        }
      }
    }
  }
}
