/** Asset deltas, the snapshots they produce, and what the recorded previous hashes are good for. */
module Deltas {
  import opened Prelude

  datatype AssetDelta = AssetDelta(
    assetId: Option<string>,
    path: string,
    fromHash: Option<string>,
    blobHash: Option<string>)

  datatype SnapshotAsset = SnapshotAsset(assetId: string, path: string, blobHash: string)

  type Snapshot = map<string, SnapshotAsset>

  /** A delta without an asset id is keyed by its path. */
  function Key(d: AssetDelta): string {
    d.assetId.GetOr(d.path)
  }

  function HashAt(s: Snapshot, id: string): Option<string> {
    if id in s then Some(s[id].blobHash) else None
  }

  function ApplyDelta(s: Snapshot, d: AssetDelta): Snapshot {
    if d.blobHash.Some?
    then s[Key(d) := SnapshotAsset(Key(d), d.path, d.blobHash.value)]
    else s - {Key(d)}
  }

  function ApplyDeltas(s: Snapshot, ds: seq<AssetDelta>): Snapshot {
    if ds == [] then s
    else ApplyDelta(ApplyDeltas(s, ds[..|ds| - 1]), Last(ds))
  }

  /** What submit records for one delta: its key, and the hash the asset had just before it. */
  function NormaliseDelta(s: Snapshot, d: AssetDelta): AssetDelta {
    d.(assetId := Some(Key(d)), fromHash := HashAt(s, Key(d)))
  }

  function Normalise(s: Snapshot, ds: seq<AssetDelta>): (r: seq<AssetDelta>)
    ensures |r| == |ds|
  {
    if ds == [] then []
    else Normalise(s, ds[..|ds| - 1]) + [NormaliseDelta(ApplyDeltas(s, ds[..|ds| - 1]), Last(ds))]
  }

  /** The submit loop: one pass that updates the running snapshot and records each delta. */
  method ApplyAssets(parent: Snapshot, assets: seq<AssetDelta>)
    returns (snapshot: Snapshot, normalised: seq<AssetDelta>)
    ensures snapshot == ApplyDeltas(parent, assets)
    ensures normalised == Normalise(parent, assets)
  {
    snapshot, normalised := parent, [];
    for k := 0 to |assets|
      invariant snapshot == ApplyDeltas(parent, assets[..k])
      invariant normalised == Normalise(parent, assets[..k])
    {
      assert assets[..k + 1][..k] == assets[..k];
      var asset := assets[k];
      var id := asset.assetId.GetOr(asset.path);
      asset := asset.(assetId := Some(id),
                      fromHash := if id in snapshot then Some(snapshot[id].blobHash) else None);
      if asset.blobHash.Some? {
        snapshot := snapshot[id := SnapshotAsset(id, asset.path, asset.blobHash.value)];
      } else {
        snapshot := snapshot - {id};
      }
      normalised := normalised + [asset];
    }
    assert assets[..|assets|] == assets;
  }

  // ---- normalising changes what is recorded, never what is applied

  lemma {:induction false} NormalisedAppliesAlike(s: Snapshot, ds: seq<AssetDelta>)
    ensures ApplyDeltas(s, Normalise(s, ds)) == ApplyDeltas(s, ds)
  {
    if ds != [] {
      var n := Normalise(s, ds);
      assert n[..|n| - 1] == Normalise(s, ds[..|ds| - 1]);
      NormalisedAppliesAlike(s, ds[..|ds| - 1]);
    }
  }

  lemma {:induction false} NormaliseIsIdempotent(s: Snapshot, ds: seq<AssetDelta>)
    ensures Normalise(s, Normalise(s, ds)) == Normalise(s, ds)
  {
    if ds != [] {
      var n := Normalise(s, ds);
      assert n[..|n| - 1] == Normalise(s, ds[..|ds| - 1]);
      NormaliseIsIdempotent(s, ds[..|ds| - 1]);
      NormalisedAppliesAlike(s, ds[..|ds| - 1]);
    }
  }

  /** Each delta is recorded under its own asset id, or else its path, with the hash just before it. */
  lemma {:induction false} RecordedDelta(s: Snapshot, ds: seq<AssetDelta>, k: nat)
    requires k < |ds|
    ensures var key, before := ds[k].assetId.GetOr(ds[k].path), ApplyDeltas(s, ds[..k]);
            Normalise(s, ds)[k] ==
            AssetDelta(Some(key), ds[k].path, if key in before then Some(before[key].blobHash) else None,
                       ds[k].blobHash)
  {
    var front := ds[..|ds| - 1];
    if k < |front| {
      RecordedDelta(s, front, k);
      assert front[..k] == ds[..k];
    }
  }

  predicate Names(d: AssetDelta, id: string) {
    d.assetId == Some(id) || (d.assetId.None? && d.path == id)
  }

  predicate LastNames(ds: seq<AssetDelta>, id: string, k: nat) {
    k < |ds| && Names(ds[k], id) && forall j :: k < j < |ds| ==> !Names(ds[j], id)
  }

  lemma OneDelta(s: Snapshot, d: AssetDelta, id: string)
    ensures Names(d, id) && d.blobHash.None? ==> id !in ApplyDelta(s, d)
    ensures Names(d, id) && d.blobHash.Some? ==>
              id in ApplyDelta(s, d) && ApplyDelta(s, d)[id] == SnapshotAsset(id, d.path, d.blobHash.value)
    ensures !Names(d, id) ==> (id in ApplyDelta(s, d) <==> id in s) && (id in s ==> ApplyDelta(s, d)[id] == s[id])
  {
  }

  /** The last delta that names an asset decides it: without a hash it is gone, with one it has that hash and path. */
  lemma {:induction false} LastDeltaDecides(s: Snapshot, ds: seq<AssetDelta>, id: string, k: nat)
    requires LastNames(ds, id, k)
    ensures if ds[k].blobHash.None? then id !in ApplyDeltas(s, ds)
            else id in ApplyDeltas(s, ds)
                 && ApplyDeltas(s, ds)[id] == SnapshotAsset(id, ds[k].path, ds[k].blobHash.value)
  {
    var front := ds[..|ds| - 1];
    OneDelta(ApplyDeltas(s, front), Last(ds), id);
    if k < |front| {
      assert forall j :: 0 <= j < |front| ==> front[j] == ds[j];
      LastDeltaDecides(s, front, id, k);
    }
  }

  /** An asset that no delta names stays as it was. */
  lemma {:induction false} UnnamedStays(s: Snapshot, ds: seq<AssetDelta>, id: string)
    requires forall k :: 0 <= k < |ds| ==> !Names(ds[k], id)
    ensures id in ApplyDeltas(s, ds) <==> id in s
    ensures id in s ==> ApplyDeltas(s, ds)[id] == s[id]
  {
    if ds != [] {
      UnnamedStays(s, ds[..|ds| - 1], id);
      OneDelta(ApplyDeltas(s, ds[..|ds| - 1]), Last(ds), id);
    }
  }

  lemma {:induction false} ApplyConcat(s: Snapshot, a: seq<AssetDelta>, b: seq<AssetDelta>)
    ensures ApplyDeltas(s, a + b) == ApplyDeltas(ApplyDeltas(s, a), b)
  {
    if b == [] {
      assert a + b == a;
    } else {
      assert (a + b)[..|a + b| - 1] == a + b[..|b| - 1];
      ApplyConcat(s, a, b[..|b| - 1]);
    }
  }

  /** Every entry is filed under its own asset id. */
  ghost predicate WellKeyed(s: Snapshot) {
    forall id :: id in s ==> s[id].assetId == id
  }

  lemma {:induction false} ApplyKeepsKeys(s: Snapshot, ds: seq<AssetDelta>)
    requires WellKeyed(s)
    ensures WellKeyed(ApplyDeltas(s, ds))
  {
    if ds != [] {
      ApplyKeepsKeys(s, ds[..|ds| - 1]);
    }
  }

  // ---- every changeset can be undone from its own record

  function Hashes(s: Snapshot): map<string, string> {
    map id | id in s :: s[id].blobHash
  }

  function UndoDelta(h: map<string, string>, d: AssetDelta): map<string, string> {
    if d.fromHash.Some? then h[Key(d) := d.fromHash.value] else h - {Key(d)}
  }

  /** Undo the last delta first. */
  function UndoDeltas(h: map<string, string>, ds: seq<AssetDelta>): map<string, string>
    decreases |ds|
  {
    if ds == [] then h
    else UndoDeltas(UndoDelta(h, Last(ds)), ds[..|ds| - 1])
  }

  lemma UndoOne(s: Snapshot, d: AssetDelta)
    requires d.fromHash == HashAt(s, Key(d))
    ensures UndoDelta(Hashes(ApplyDelta(s, d)), d) == Hashes(s)
  {
  }

  /** The recorded previous hashes lead back to the parent's id-to-hash map, even when one
      changeset touches the same asset several times. */
  lemma {:induction false} DeltasAreInvertible(s: Snapshot, ds: seq<AssetDelta>)
    requires Normalise(s, ds) == ds
    decreases |ds|
    ensures UndoDeltas(Hashes(ApplyDeltas(s, ds)), ds) == Hashes(s)
  {
    if ds != [] {
      var front := ds[..|ds| - 1];
      var n := Normalise(s, ds);
      assert n[..|n| - 1] == Normalise(s, front);
      UndoOne(ApplyDeltas(s, front), Last(ds));
      DeltasAreInvertible(s, front);
    }
  }
}
