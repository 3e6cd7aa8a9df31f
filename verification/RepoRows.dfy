/** The relational form of a repository: what is written, what is deleted with it, and how a
    repository is rebuilt from rows, its histories from the parent links alone. */
module RepoRows {
  import opened Prelude
  import opened Deltas
  import opened Lineage
  import opened Versioning
  import opened VersionInvariant

  datatype BranchRow = BranchRow(repoId: string, name: string, head: Option<Id>, createdBy: string, isDefault: bool)

  datatype ChangesetRow = ChangesetRow(
    id: Id, repoId: string, branch: string, parent: Option<Id>, base: Option<Id>, kind: string,
    rollbackOf: Option<Id>, author: string, message: string, status: string, approvedBy: Option<string>,
    stagingRef: Option<string>, visibleRef: Option<string>)

  datatype DeltaRow = DeltaRow(
    changesetId: Id, assetId: Option<string>, path: string, fromHash: Option<string>,
    toHash: Option<string>, blobHash: Option<string>)

  datatype SnapshotRow = SnapshotRow(
    repoId: string, changesetId: Id, assetId: Option<string>, path: string, blobHash: string)

  datatype Tables = Tables(
    repos: map<string, string>,
    branches: seq<BranchRow>,
    changesets: seq<ChangesetRow>,
    deltas: seq<DeltaRow>,
    snapshots: seq<SnapshotRow>)

  // ---- texts for kinds and statuses

  function KindText(k: Kind): string {
    if k == Normal then "normal" else "rollback"
  }

  function ParseKind(t: string): Kind {
    if t == "rollback" then Rollback else Normal
  }

  function StatusText(s: Status): string {
    match s
    case Draft => "draft"
    case Approved => "approved"
    case Visible => "visible"
  }

  function ParseStatus(t: string): Status {
    if t == "draft" then Draft else if t == "approved" then Approved else Visible
  }

  // ---- rows of values

  function BranchRowOf(r: string, b: BranchRecord): BranchRow {
    BranchRow(r, b.name, b.head, b.createdBy, b.isDefault)
  }

  function ChangesetRowOf(c: Changeset): ChangesetRow {
    ChangesetRow(c.id, c.repoId, c.branch, c.parent, c.base, KindText(c.kind), c.rollbackOf, c.author, c.message,
                 StatusText(c.status), c.approvedBy, c.stagingRef, c.visibleRef)
  }

  function DeltaRowOf(id: Id, d: AssetDelta): DeltaRow {
    DeltaRow(id, Some(d.assetId.GetOr(d.path)), d.path, d.fromHash, d.blobHash, d.blobHash)
  }

  function SnapshotRowOf(r: string, id: Id, key: string, a: SnapshotAsset): SnapshotRow {
    SnapshotRow(r, id, Some(key), a.path, a.blobHash)
  }

  function DeltaRows(id: Id, ds: seq<AssetDelta>): seq<DeltaRow> {
    if ds == [] then [] else DeltaRows(id, ds[..|ds| - 1]) + [DeltaRowOf(id, Last(ds))]
  }

  function DeltasFor(rows: seq<DeltaRow>, id: Id): seq<DeltaRow> {
    if rows == [] then []
    else DeltasFor(rows[..|rows| - 1], id) + if Last(rows).changesetId == id then [Last(rows)] else []
  }

  // ---- rebuilding a repository, one row at a time

  function BranchesFrom(rows: seq<BranchRow>, r: string): map<string, BranchState> {
    if rows == [] then map[]
    else
      var m, row := BranchesFrom(rows[..|rows| - 1], r), Last(rows);
      if row.repoId != r then m
      else m[row.name := BranchState(BranchRecord(row.name, row.createdBy, row.isDefault, row.head), [])]
  }

  function DefaultFrom(rows: seq<BranchRow>, r: string): string {
    if rows == [] then "main"
    else if Last(rows).repoId == r && Last(rows).isDefault then Last(rows).name
    else DefaultFrom(rows[..|rows| - 1], r)
  }

  function RecordFrom(row: ChangesetRow): Changeset {
    Changeset(row.id, row.repoId, row.branch, row.parent, row.base, ParseKind(row.kind), row.rollbackOf, row.author,
              row.message, ParseStatus(row.status), row.approvedBy, row.stagingRef, row.visibleRef, [])
  }

  function RecordsFrom(rows: seq<ChangesetRow>, r: string): Changesets {
    if rows == [] then map[] else AddRecordRow(RecordsFrom(rows[..|rows| - 1], r), Last(rows), r)
  }

  function AddRecordRow(m: Changesets, row: ChangesetRow, r: string): Changesets {
    if row.repoId != r then m else m[row.id := RecordFrom(row)]
  }

  function DeltaFrom(row: DeltaRow): AssetDelta {
    AssetDelta(row.assetId, row.path, row.fromHash, if row.toHash.Some? then row.toHash else row.blobHash)
  }

  function AddDeltaRow(m: Changesets, row: DeltaRow): Changesets {
    if row.changesetId !in m then m
    else m[row.changesetId := m[row.changesetId].(assets := m[row.changesetId].assets + [DeltaFrom(row)])]
  }

  function WithDeltas(cs: Changesets, rows: seq<DeltaRow>): Changesets {
    if rows == [] then cs else AddDeltaRow(WithDeltas(cs, rows[..|rows| - 1]), Last(rows))
  }

  function AddSnapshotRow(m: map<Id, Snapshot>, row: SnapshotRow, r: string): map<Id, Snapshot> {
    if row.repoId != r then m
    else
      var key := row.assetId.GetOr(row.path);
      var s := if row.changesetId in m then m[row.changesetId] else map[];
      m[row.changesetId := s[key := SnapshotAsset(key, row.path, row.blobHash)]]
  }

  function SnapshotsFrom(rows: seq<SnapshotRow>, r: string): map<Id, Snapshot> {
    if rows == [] then map[]
    else AddSnapshotRow(SnapshotsFrom(rows[..|rows| - 1], r), Last(rows), r)
  }

  function BareRepo(t: Tables, r: string, who: string): Repo {
    var branches := BranchesFrom(t.branches, r);
    var repo := Repo(DefaultFrom(t.branches, r), branches, WithDeltas(RecordsFrom(t.changesets, r), t.deltas),
                     SnapshotsFrom(t.snapshots, r));
    if branches == map[] then EnsureDefault(repo, who) else repo
  }

  /** Histories are not stored: each is the lineage of its head. */
  ghost function Rebuilt(cs: Changesets, b: BranchState): BranchState {
    b.(history := if b.record.head.None? then [] else LineageOf(cs, b.record.head.value).GetOr([]))
  }

  ghost function RepoFrom(t: Tables, r: string, who: string): Repo {
    var repo := BareRepo(t, r, who);
    repo.(branches := map name | name in repo.branches :: Rebuilt(repo.changesets, repo.branches[name]))
  }

  // ---- when the tables hold a repository

  ghost predicate HoldsBranches(rows: seq<BranchRow>, r: string, m: map<string, BranchState>) {
    && (forall row :: row in rows && row.repoId == r ==> row.name in m && row == BranchRowOf(r, m[row.name].record))
    && (forall name :: name in m ==> BranchRowOf(r, m[name].record) in rows)
  }

  ghost predicate HoldsRecords(rows: seq<ChangesetRow>, r: string, m: Changesets) {
    && (forall row :: row in rows && row.repoId == r ==> row.id in m && row == ChangesetRowOf(m[row.id]))
    && (forall id :: id in m ==> ChangesetRowOf(m[id]) in rows)
  }

  ghost predicate HoldsDeltas(rows: seq<DeltaRow>, m: Changesets) {
    forall id {:trigger DeltasFor(rows, id)} :: id in m ==> DeltasFor(rows, id) == DeltaRows(id, m[id].assets)
  }

  ghost predicate HoldsSnapshots(rows: seq<SnapshotRow>, r: string, m: map<Id, Snapshot>) {
    && (forall row :: row in rows && row.repoId == r ==> IsRowOf(row, r, m))
    && (forall id, key :: id in m && key in m[id] ==> SnapshotRowOf(r, id, key, m[id][key]) in rows)
  }

  ghost predicate IsRowOf(row: SnapshotRow, r: string, m: map<Id, Snapshot>) {
    && row.assetId.Some? && row.changesetId in m && row.assetId.value in m[row.changesetId]
    && row == SnapshotRowOf(r, row.changesetId, row.assetId.value, m[row.changesetId][row.assetId.value])
  }

  ghost predicate Holds(t: Tables, r: string, repo: Repo) {
    && r in t.repos
    && HoldsBranches(t.branches, r, repo.branches)
    && HoldsRecords(t.changesets, r, repo.changesets)
    && HoldsDeltas(t.deltas, repo.changesets)
    && HoldsSnapshots(t.snapshots, r, repo.snapshots)
  }

  /** The text under which a status is stored, which queries compare with. */
  lemma HeldRowsSay(t: Tables, r: string, repo: Repo, row: ChangesetRow)
    requires Holds(t, r, repo) && row in t.changesets && row.repoId == r
    ensures row.id in repo.changesets
    ensures var c := repo.changesets[row.id];
            && row.status ==
               (match c.status case Draft => "draft" case Approved => "approved" case Visible => "visible")
            && row.kind == (match c.kind case Normal => "normal" case Rollback => "rollback")
            && row.branch == c.branch && row.parent == c.parent && row.base == c.base
            && row.rollbackOf == c.rollbackOf && row.author == c.author && row.message == c.message
            && row.approvedBy == c.approvedBy && row.stagingRef == c.stagingRef && row.visibleRef == c.visibleRef
  {
  }

  /** The row of every branch, delta and snapshot entry, column by column. A delta's new hash is stored twice. */
  lemma HeldEntriesSay(t: Tables, r: string, repo: Repo)
    requires Holds(t, r, repo)
    ensures forall row :: row in t.branches && row.repoId == r ==>
              row.name in repo.branches
              && var b := repo.branches[row.name].record;
                 row == BranchRow(r, b.name, b.head, b.createdBy, b.isDefault)
    ensures forall row :: row in t.snapshots && row.repoId == r ==>
              row.changesetId in repo.snapshots && row.assetId.Some?
              && row.assetId.value in repo.snapshots[row.changesetId]
              && row.path == repo.snapshots[row.changesetId][row.assetId.value].path
              && row.blobHash == repo.snapshots[row.changesetId][row.assetId.value].blobHash
    ensures forall id :: id in repo.changesets ==>
              var rows, ds := DeltasFor(t.deltas, id), repo.changesets[id].assets;
              |rows| == |ds|
              && forall k :: 0 <= k < |ds| ==>
                   rows[k] == DeltaRow(id, Some(ds[k].assetId.GetOr(ds[k].path)), ds[k].path, ds[k].fromHash,
                                       ds[k].blobHash, ds[k].blobHash)
  {
    forall id | id in repo.changesets
      ensures DeltasFor(t.deltas, id) == DeltaRows(id, repo.changesets[id].assets)
    {
    }
    forall id, k | id in repo.changesets && 0 <= k < |repo.changesets[id].assets|
      ensures |DeltaRows(id, repo.changesets[id].assets)| == |repo.changesets[id].assets|
      ensures DeltaRows(id, repo.changesets[id].assets)[k] == DeltaRowOf(id, repo.changesets[id].assets[k])
    {
      DeltaRowsInOrder(id, repo.changesets[id].assets, k);
    }
  }

  lemma {:induction false} DeltaRowsInOrder(id: Id, ds: seq<AssetDelta>, k: nat)
    requires k < |ds|
    ensures |DeltaRows(id, ds)| == |ds| && DeltaRows(id, ds)[k] == DeltaRowOf(id, ds[k])
  {
    var front := ds[..|ds| - 1];
    if front != [] {
      DeltaRowsInOrder(id, front, if k < |front| then k else 0);
    }
  }

  // ---- tables that hold a repository give it back

  lemma {:induction false} BranchesComeBack(rows: seq<BranchRow>, r: string, m: map<string, BranchState>)
    requires forall row :: row in rows && row.repoId == r ==> row.name in m && row == BranchRowOf(r, m[row.name].record)
    requires forall name :: name in m ==> m[name].record.name == name
    ensures forall name :: name in BranchesFrom(rows, r) <==>
                           name in m && BranchRowOf(r, m[name].record) in rows
    ensures forall name :: name in BranchesFrom(rows, r) ==>
                             BranchesFrom(rows, r)[name] == BranchState(m[name].record, [])
  {
    if rows != [] {
      BranchesComeBack(rows[..|rows| - 1], r, m);
      assert rows == rows[..|rows| - 1] + [Last(rows)];
      assert Last(rows) in rows;
    }
  }

  lemma {:induction false} DefaultComesBack(rows: seq<BranchRow>, r: string, repo: Repo)
    requires forall row :: row in rows && row.repoId == r ==>
                             row.name in repo.branches && row == BranchRowOf(r, repo.branches[row.name].record)
    requires RepoOk(r, repo)
    ensures (exists row :: row in rows && row.repoId == r && row.isDefault) ==>
              DefaultFrom(rows, r) == repo.defaultBranch
  {
    if rows != [] {
      DefaultComesBack(rows[..|rows| - 1], r, repo);
      assert rows == rows[..|rows| - 1] + [Last(rows)];
      assert Last(rows) in rows;
      if Last(rows).repoId == r && Last(rows).isDefault {
        assert BranchOk(repo, Last(rows).name);
      }
    }
  }

  lemma {:induction false} RecordComesBack(rows: seq<ChangesetRow>, r: string, m: Changesets, id: Id)
    requires forall row :: row in rows && row.repoId == r ==> row.id in m && row == ChangesetRowOf(m[row.id])
    requires id in m ==> m[id].id == id && m[id].repoId == r
    ensures id in RecordsFrom(rows, r) <==> id in m && ChangesetRowOf(m[id]) in rows
    ensures id in RecordsFrom(rows, r) ==> RecordsFrom(rows, r)[id] == m[id].(assets := [])
  {
    if rows != [] {
      var front, row := rows[..|rows| - 1], Last(rows);
      RecordComesBack(front, r, m, id);
      InLonger(rows, row);
      if id in m {
        InLonger(rows, ChangesetRowOf(m[id]));
      }
      RecordAfterRow(RecordsFrom(front, r), row, r, m, id);
    }
  }

  lemma RecordAfterRow(loaded: Changesets, row: ChangesetRow, r: string, m: Changesets, id: Id)
    requires row.repoId == r ==> row.id in m && row == ChangesetRowOf(m[row.id])
    requires id in m ==> m[id].id == id && m[id].repoId == r
    requires id in loaded ==> id in m && loaded[id] == m[id].(assets := [])
    ensures id in AddRecordRow(loaded, row, r) <==> id in loaded || (id in m && row == ChangesetRowOf(m[id]))
    ensures id in AddRecordRow(loaded, row, r) ==> id in m && AddRecordRow(loaded, row, r)[id] == m[id].(assets := [])
  {
  }

  function DeltasFrom(rows: seq<DeltaRow>): seq<AssetDelta> {
    if rows == [] then [] else DeltasFrom(rows[..|rows| - 1]) + [DeltaFrom(Last(rows))]
  }

  lemma DeltaRowAppended(f: seq<DeltaRow>, row: DeltaRow)
    ensures DeltasFrom(f + [row]) == DeltasFrom(f) + [DeltaFrom(row)]
  {
    assert (f + [row])[..|f + [row]| - 1] == f;
  }

  lemma {:induction false} DeltasAreAppended(cs: Changesets, rows: seq<DeltaRow>, id: Id)
    requires id in cs
    ensures WithDeltas(cs, rows).Keys == cs.Keys
    ensures WithDeltas(cs, rows)[id] == cs[id].(assets := cs[id].assets + DeltasFrom(DeltasFor(rows, id)))
  {
    if rows == [] {
      assert cs[id].assets + [] == cs[id].assets;
    } else {
      var front, row := rows[..|rows| - 1], Last(rows);
      DeltasAreAppended(cs, front, id);
      OneDeltaAppended(cs[id], WithDeltas(cs, front), DeltasFor(front, id), row, id);
      if row.changesetId == id {
        assert DeltasFor(rows, id) == DeltasFor(front, id) + [row];
      } else {
        assert DeltasFor(rows, id) == DeltasFor(front, id);
      }
    }
  }

  lemma OneDeltaAppended(c: Changeset, m: Changesets, f: seq<DeltaRow>, row: DeltaRow, id: Id)
    requires id in m && m[id] == c.(assets := c.assets + DeltasFrom(f))
    ensures AddDeltaRow(m, row).Keys == m.Keys
    ensures AddDeltaRow(m, row)[id] ==
            if row.changesetId == id then c.(assets := c.assets + DeltasFrom(f + [row])) else m[id]
  {
    DeltaRowAppended(f, row);
    assert (c.assets + DeltasFrom(f)) + [DeltaFrom(row)] == c.assets + (DeltasFrom(f) + [DeltaFrom(row)]);
  }

  ghost predicate AllNamed(ds: seq<AssetDelta>) {
    forall k :: 0 <= k < |ds| ==> ds[k].assetId.Some?
  }

  lemma DeltaRowComesBack(id: Id, ds: seq<AssetDelta>)
    requires AllNamed(ds) && ds != []
    ensures DeltaFrom(DeltaRowOf(id, Last(ds))) == Last(ds) && AllNamed(ds[..|ds| - 1])
  {
    assert ds[|ds| - 1].assetId.Some?;
  }

  lemma {:induction false} DeltaRowsComeBack(id: Id, ds: seq<AssetDelta>)
    requires AllNamed(ds)
    ensures DeltasFrom(DeltaRows(id, ds)) == ds
  {
    if ds != [] {
      var front := ds[..|ds| - 1];
      DeltaRowComesBack(id, ds);
      DeltaRowsComeBack(id, front);
      DeltaRowAppended(DeltaRows(id, front), DeltaRowOf(id, Last(ds)));
      assert ds == front + [Last(ds)];
    }
  }

  lemma {:induction false} NormalisedHaveIds(s: Snapshot, ds: seq<AssetDelta>)
    requires Normalise(s, ds) == ds
    ensures forall k :: 0 <= k < |ds| ==> ds[k].assetId.Some?
  {
    if ds != [] {
      assert Normalise(s, ds)[..|ds| - 1] == Normalise(s, ds[..|ds| - 1]);
      NormalisedHaveIds(s, ds[..|ds| - 1]);
      assert ds[|ds| - 1] == NormaliseDelta(ApplyDeltas(s, ds[..|ds| - 1]), Last(ds));
    }
  }

  function Entry(m: map<Id, Snapshot>, id: Id, key: string): Option<SnapshotAsset> {
    if id in m && key in m[id] then Some(m[id][key]) else None
  }

  lemma InLonger<T>(s: seq<T>, x: T)
    requires s != []
    ensures x in s <==> x in s[..|s| - 1] || x == Last(s)
  {
    assert s == s[..|s| - 1] + [Last(s)];
  }

  lemma {:induction false} EntryComesBack(rows: seq<SnapshotRow>, r: string, m: map<Id, Snapshot>, id: Id, key: string)
    requires forall row :: row in rows && row.repoId == r ==> IsRowOf(row, r, m)
    requires id in m ==> WellKeyed(m[id])
    ensures Entry(SnapshotsFrom(rows, r), id, key) ==
            if id in m && key in m[id] && SnapshotRowOf(r, id, key, m[id][key]) in rows then Some(m[id][key]) else None
  {
    if rows != [] {
      var front, row := rows[..|rows| - 1], Last(rows);
      EntryComesBack(front, r, m, id, key);
      InLonger(rows, row);
      if id in m && key in m[id] {
        InLonger(rows, SnapshotRowOf(r, id, key, m[id][key]));
      }
      EntryAfterRow(SnapshotsFrom(front, r), row, r, m, id, key);
    }
  }

  lemma EntryAfterRow(loaded: map<Id, Snapshot>, row: SnapshotRow, r: string, m: map<Id, Snapshot>, id: Id, key: string)
    requires row.repoId == r ==> IsRowOf(row, r, m)
    requires id in m ==> WellKeyed(m[id])
    ensures Entry(AddSnapshotRow(loaded, row, r), id, key) ==
            if id in m && key in m[id] && row == SnapshotRowOf(r, id, key, m[id][key]) then Some(m[id][key])
            else Entry(loaded, id, key)
  {
  }

  lemma {:induction false} LoadedAreNotEmpty(rows: seq<SnapshotRow>, r: string, id: Id)
    requires id in SnapshotsFrom(rows, r)
    ensures SnapshotsFrom(rows, r)[id] != map[]
  {
    var front, row := rows[..|rows| - 1], Last(rows);
    if row.repoId == r && row.changesetId == id {
      assert row.assetId.GetOr(row.path) in SnapshotsFrom(rows, r)[id];
    } else {
      LoadedAreNotEmpty(front, r, id);
    }
  }

  /** Loading what was saved gives the same branches, default branch, histories, changesets and
      ordered deltas, and the same snapshots except that empty ones are missing. */
  lemma LoadAfterSave(t: Tables, r: string, repo: Repo, who: string)
    requires Holds(t, r, repo) && RepoOk(r, repo)
    ensures RepoFrom(t, r, who) == DropEmpty(repo)
  {
    BranchPartComesBack(t, r, repo);
    RecordPartComesBack(t, r, repo);
    SnapshotPartComesBack(t, r, repo);
    var loaded := RepoFrom(t, r, who);
    forall name | name in repo.branches
      ensures loaded.branches[name] == repo.branches[name]
    {
      assert BranchOk(repo, name);
      var b := repo.branches[name];
      if b.record.head.Some? {
        var head := b.record.head.value;
        WalkIsUnique(repo.changesets, LineageOf(repo.changesets, head).value, b.history, head);
      }
    }
    assert loaded.branches == repo.branches;
  }

  lemma BranchPartComesBack(t: Tables, r: string, repo: Repo)
    requires Holds(t, r, repo) && RepoOk(r, repo)
    ensures BranchesFrom(t.branches, r).Keys == repo.branches.Keys && repo.branches != map[]
    ensures forall name :: name in repo.branches ==>
                             BranchesFrom(t.branches, r)[name] == BranchState(repo.branches[name].record, [])
    ensures DefaultFrom(t.branches, r) == repo.defaultBranch
  {
    forall name | name in repo.branches
      ensures repo.branches[name].record.name == name
    {
      assert BranchOk(repo, name);
    }
    BranchesComeBack(t.branches, r, repo.branches);
    assert BranchOk(repo, repo.defaultBranch);
    assert BranchRowOf(r, repo.branches[repo.defaultBranch].record) in t.branches;
    DefaultComesBack(t.branches, r, repo);
  }

  lemma RecordPartComesBack(t: Tables, r: string, repo: Repo)
    requires Holds(t, r, repo) && RepoOk(r, repo)
    ensures WithDeltas(RecordsFrom(t.changesets, r), t.deltas) == repo.changesets
  {
    var bare := RecordsFrom(t.changesets, r);
    forall id | id in repo.changesets
      ensures repo.changesets[id].id == id && repo.changesets[id].repoId == r
    {
      assert RecordOk(r, repo, id);
    }
    forall id
      ensures id in bare <==> id in repo.changesets
      ensures id in bare ==> bare[id] == repo.changesets[id].(assets := [])
    {
      RecordComesBack(t.changesets, r, repo.changesets, id);
    }
    assert bare.Keys == repo.changesets.Keys;
    if bare == map[] {
      NoRecordsNoDeltas(bare, t.deltas);
    }
    forall id | id in repo.changesets
      ensures WithDeltas(bare, t.deltas).Keys == bare.Keys && WithDeltas(bare, t.deltas)[id] == repo.changesets[id]
    {
      assert RecordOk(r, repo, id);
      DeltasAreAppended(bare, t.deltas, id);
      NormalisedHaveIds(SnapshotAt(repo, repo.changesets[id].parent), repo.changesets[id].assets);
      DeltaRowsComeBack(id, repo.changesets[id].assets);
      assert [] + repo.changesets[id].assets == repo.changesets[id].assets;
    }
  }

  lemma {:induction false} NoRecordsNoDeltas(cs: Changesets, rows: seq<DeltaRow>)
    requires cs == map[]
    ensures WithDeltas(cs, rows) == cs
  {
    if rows != [] {
      NoRecordsNoDeltas(cs, rows[..|rows| - 1]);
    }
  }

  lemma OneSnapshotComesBack(rows: seq<SnapshotRow>, r: string, m: map<Id, Snapshot>, id: Id)
    requires HoldsSnapshots(rows, r, m)
    requires forall x :: x in m ==> WellKeyed(m[x])
    ensures id in SnapshotsFrom(rows, r) <==> id in m && m[id] != map[]
    ensures id in SnapshotsFrom(rows, r) ==> SnapshotsFrom(rows, r)[id] == m[id]
  {
    var loaded := SnapshotsFrom(rows, r);
    forall key
      ensures Entry(loaded, id, key) == Entry(m, id, key)
    {
      EntryComesBack(rows, r, m, id, key);
    }
    if id in m && m[id] != map[] {
      var key :| key in m[id];
      assert Entry(loaded, id, key) == Entry(m, id, key);
    }
    if id in loaded {
      LoadedAreNotEmpty(rows, r, id);
      var key :| key in loaded[id];
      assert Entry(loaded, id, key) == Entry(m, id, key);
      forall k
        ensures k in loaded[id] <==> k in m[id]
        ensures k in loaded[id] ==> loaded[id][k] == m[id][k]
      {
        assert Entry(loaded, id, k) == Entry(m, id, k);
      }
    }
  }

  lemma SnapshotPartComesBack(t: Tables, r: string, repo: Repo)
    requires Holds(t, r, repo) && RepoOk(r, repo)
    ensures SnapshotsFrom(t.snapshots, r) == DropEmpty(repo).snapshots
  {
    forall id | id in repo.snapshots
      ensures WellKeyed(repo.snapshots[id])
    {
      assert RecordOk(r, repo, id);
    }
    forall id
      ensures id in SnapshotsFrom(t.snapshots, r) <==> id in DropEmpty(repo).snapshots
      ensures id in SnapshotsFrom(t.snapshots, r) ==> SnapshotsFrom(t.snapshots, r)[id] == DropEmpty(repo).snapshots[id]
    {
      OneSnapshotComesBack(t.snapshots, r, repo.snapshots, id);
    }
  }
}
