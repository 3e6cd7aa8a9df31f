/** The database object that saves and loads repositories, table by table and row by row. */
module RepoTables {
  import opened Prelude
  import opened Deltas
  import opened Lineage
  import opened Versioning
  import opened VersionInvariant
  import opened RepoRows

  function Without<T>(rows: seq<T>, drop: T -> bool): seq<T> {
    if rows == [] then []
    else Without(rows[..|rows| - 1], drop) + if drop(Last(rows)) then [] else [Last(rows)]
  }

  lemma {:induction false} WithoutHas<T(!new)>(rows: seq<T>, drop: T -> bool, x: T)
    ensures x in Without(rows, drop) <==> x in rows && !drop(x)
  {
    if rows != [] {
      assert rows == rows[..|rows| - 1] + [Last(rows)];
      WithoutHas(rows[..|rows| - 1], drop, x);
    }
  }

  ghost predicate HasChangeset(rows: seq<ChangesetRow>, id: Id, r: string) {
    exists row :: row in rows && row.id == id && row.repoId == r
  }

  /** Delta and snapshot rows belong to changeset rows, and a changeset id is a primary key. */
  ghost predicate TablesOk(t: Tables) {
    && (forall d :: d in t.deltas ==> exists r :: HasChangeset(t.changesets, d.changesetId, r))
    && (forall s :: s in t.snapshots ==> HasChangeset(t.changesets, s.changesetId, s.repoId))
    && (forall a, b :: a in t.changesets && b in t.changesets && a.id == b.id ==> a == b)
  }

  /** Everything that other repositories have stays: their rows, and their deltas in order. */
  ghost predicate OthersKept(t: Tables, t': Tables, r: string) {
    && (forall q :: q != r ==> (q in t.repos <==> q in t'.repos))
    && (forall row: BranchRow :: row.repoId != r ==> (row in t.branches <==> row in t'.branches))
    && (forall row: ChangesetRow :: row.repoId != r ==> (row in t.changesets <==> row in t'.changesets))
    && (forall row: SnapshotRow :: row.repoId != r ==> (row in t.snapshots <==> row in t'.snapshots))
    && (forall id {:trigger DeltasFor(t'.deltas, id)} :: (exists q :: q != r && HasChangeset(t.changesets, id, q)) ==>
          DeltasFor(t'.deltas, id) == DeltasFor(t.deltas, id))
  }

  /** Saving one repository leaves every other one loadable as it was. */
  lemma OthersStillHeld(t: Tables, t': Tables, r: string, q: string, repo: Repo)
    requires OthersKept(t, t', r) && q != r && Holds(t, q, repo) && RepoOk(q, repo)
    ensures Holds(t', q, repo)
  {
    forall id | id in repo.changesets
      ensures DeltasFor(t'.deltas, id) == DeltaRows(id, repo.changesets[id].assets)
      ensures ChangesetRowOf(repo.changesets[id]) in t'.changesets
    {
      assert RecordOk(q, repo, id);
      assert ChangesetRowOf(repo.changesets[id]) in t.changesets;
      assert HasChangeset(t.changesets, id, q);
      assert DeltasFor(t.deltas, id) == DeltaRows(id, repo.changesets[id].assets);
    }
  }

  // ---- what the deletes leave

  /** The delta rows left when the changesets `gone` are deleted. */
  function DropDeltas(rows: seq<DeltaRow>, gone: set<Id>): seq<DeltaRow> {
    if rows == [] then []
    else DropDeltas(rows[..|rows| - 1], gone) + if Last(rows).changesetId in gone then [] else [Last(rows)]
  }

  lemma {:induction false} DropDeltasHas(rows: seq<DeltaRow>, gone: set<Id>, d: DeltaRow)
    ensures d in DropDeltas(rows, gone) <==> d in rows && d.changesetId !in gone
  {
    if rows != [] {
      assert rows == rows[..|rows| - 1] + [Last(rows)];
      DropDeltasHas(rows[..|rows| - 1], gone, d);
    }
  }

  lemma {:induction false} DeltasAfterDelete(rows: seq<DeltaRow>, gone: set<Id>, id: Id)
    ensures DeltasFor(DropDeltas(rows, gone), id) == if id in gone then [] else DeltasFor(rows, id)
  {
    if rows != [] {
      var kept := DropDeltas(rows[..|rows| - 1], gone);
      DeltasAfterDelete(rows[..|rows| - 1], gone, id);
      if Last(rows).changesetId !in gone {
        assert (kept + [Last(rows)])[..|kept|] == kept;
      } else {
        assert DropDeltas(rows, gone) == kept;
      }
    }
  }

  lemma {:induction false} DeltasForAppend(a: seq<DeltaRow>, b: seq<DeltaRow>, id: Id)
    ensures DeltasFor(a + b, id) == DeltasFor(a, id) + DeltasFor(b, id)
  {
    if b == [] {
      assert a + b == a;
    } else {
      assert (a + b)[..|a + b| - 1] == a + b[..|b| - 1];
      DeltasForAppend(a, b[..|b| - 1], id);
    }
  }

  lemma {:induction false} DeltaRowsAreFor(id: Id, ds: seq<AssetDelta>, x: Id)
    ensures DeltasFor(DeltaRows(id, ds), x) == if x == id then DeltaRows(id, ds) else []
  {
    if ds != [] {
      var rows := DeltaRows(id, ds);
      assert rows[..|rows| - 1] == DeltaRows(id, ds[..|ds| - 1]);
      DeltaRowsAreFor(id, ds[..|ds| - 1], x);
    }
  }

  lemma {:induction false} NoRowsFor(rows: seq<DeltaRow>, id: Id)
    requires forall d :: d in rows ==> d.changesetId != id
    ensures DeltasFor(rows, id) == []
  {
    if rows != [] {
      assert rows == rows[..|rows| - 1] + [Last(rows)];
      NoRowsFor(rows[..|rows| - 1], id);
    }
  }

  lemma {:induction false} DeltaRowsBelong(id: Id, ds: seq<AssetDelta>)
    ensures forall d :: d in DeltaRows(id, ds) ==> d.changesetId == id
  {
    if ds != [] {
      DeltaRowsBelong(id, ds[..|ds| - 1]);
    }
  }

  /** The tables after the deletes: the changesets of r are gone, with the rows that hang on them. */
  function Cleared(t: Tables, r: string, who: string): Tables {
    var gone := set row | row in t.changesets && row.repoId == r :: row.id;
    Tables(
      t.repos[r := who],
      Without(t.branches, (row: BranchRow) => row.repoId == r),
      Without(t.changesets, (row: ChangesetRow) => row.repoId == r),
      DropDeltas(t.deltas, gone),
      Without(t.snapshots, (row: SnapshotRow) => row.changesetId in gone))
  }

  lemma ClearedHas(t: Tables, r: string, who: string)
    ensures var t' := Cleared(t, r, who);
            var gone := set row | row in t.changesets && row.repoId == r :: row.id;
            && (forall row :: row in t'.branches <==> row in t.branches && row.repoId != r)
            && (forall row :: row in t'.changesets <==> row in t.changesets && row.repoId != r)
            && (forall row :: row in t'.deltas <==> row in t.deltas && row.changesetId !in gone)
            && (forall row :: row in t'.snapshots <==> row in t.snapshots && row.changesetId !in gone)
  {
    var t' := Cleared(t, r, who);
    var gone := set row | row in t.changesets && row.repoId == r :: row.id;
    forall row ensures row in t'.branches <==> row in t.branches && row.repoId != r {
      WithoutHas(t.branches, (row: BranchRow) => row.repoId == r, row);
    }
    forall row ensures row in t'.changesets <==> row in t.changesets && row.repoId != r {
      WithoutHas(t.changesets, (row: ChangesetRow) => row.repoId == r, row);
    }
    forall row ensures row in t'.deltas <==> row in t.deltas && row.changesetId !in gone {
      DropDeltasHas(t.deltas, gone, row);
    }
    forall row ensures row in t'.snapshots <==> row in t.snapshots && row.changesetId !in gone {
      WithoutHas(t.snapshots, (row: SnapshotRow) => row.changesetId in gone, row);
    }
  }

  lemma ClearedIsOk(t: Tables, r: string, who: string)
    requires TablesOk(t)
    ensures TablesOk(Cleared(t, r, who)) && OthersKept(t, Cleared(t, r, who), r)
    ensures forall row :: row in Cleared(t, r, who).branches ==> row.repoId != r
    ensures forall row :: row in Cleared(t, r, who).changesets ==> row.repoId != r
    ensures forall row :: row in Cleared(t, r, who).snapshots ==> row.repoId != r
  {
    var t' := Cleared(t, r, who);
    var gone := set row | row in t.changesets && row.repoId == r :: row.id;
    ClearedHas(t, r, who);
    forall id, q | q != r && HasChangeset(t.changesets, id, q)
      ensures id !in gone && HasChangeset(t'.changesets, id, q)
    {
      var row :| row in t.changesets && row.id == id && row.repoId == q;
      assert row in t'.changesets;
    }
    forall id
      ensures DeltasFor(t'.deltas, id) == if id in gone then [] else DeltasFor(t.deltas, id)
    {
      DeltasAfterDelete(t.deltas, gone, id);
    }
    forall d | d in t'.deltas
      ensures exists q :: HasChangeset(t'.changesets, d.changesetId, q)
    {
      var q :| HasChangeset(t.changesets, d.changesetId, q);
      assert q != r;
    }
    forall s | s in t'.snapshots
      ensures HasChangeset(t'.changesets, s.changesetId, s.repoId)
    {
      assert HasChangeset(t.changesets, s.changesetId, s.repoId);
    }
  }

  // ---- the inserts

  /** One changeset's delta rows, in the order of its deltas. */
  method InsertDeltas(rows: seq<DeltaRow>, id: Id, ds: seq<AssetDelta>) returns (rows': seq<DeltaRow>)
    ensures rows' == rows + DeltaRows(id, ds)
  {
    rows' := rows;
    for k := 0 to |ds|
      invariant rows' == rows + DeltaRows(id, ds[..k])
    {
      assert ds[..k + 1][..k] == ds[..k];
      rows' := rows' + [DeltaRowOf(id, ds[k])];
    }
    assert ds[..|ds|] == ds;
  }

  /** The rows of the changesets `done` have been added to the cleared tables. */
  ghost predicate ChangesetsInserted(t: Tables, t': Tables, cs: Changesets, done: set<Id>) {
    && t'.repos == t.repos && t'.branches == t.branches && t'.snapshots == t.snapshots
    && done <= cs.Keys
    && (forall row :: row in t'.changesets <==>
          row in t.changesets || (row.id in done && row == ChangesetRowOf(cs[row.id])))
    && (forall d :: d in t'.deltas ==> d in t.deltas || d.changesetId in done)
    && (forall id {:trigger DeltasFor(t'.deltas, id)} ::
          DeltasFor(t'.deltas, id) == DeltasFor(t.deltas, id) + if id in done then DeltaRows(id, cs[id].assets) else [])
  }

  lemma OneMoreChangeset(t: Tables, t1: Tables, t2: Tables, cs: Changesets, done: set<Id>, id: Id)
    requires ChangesetsInserted(t, t1, cs, done) && id in cs && id !in done && cs[id].id == id
    requires t2 == t1.(changesets := t1.changesets + [ChangesetRowOf(cs[id])],
                       deltas := t1.deltas + DeltaRows(id, cs[id].assets))
    ensures ChangesetsInserted(t, t2, cs, done + {id})
  {
    forall x
      ensures DeltasFor(t2.deltas, x)
           == DeltasFor(t.deltas, x) + if x in done + {id} then DeltaRows(x, cs[x].assets) else []
    {
      assert DeltasFor(t1.deltas, x) == DeltasFor(t.deltas, x) + if x in done then DeltaRows(x, cs[x].assets) else [];
      OneMoreBatch(t1.deltas, id, cs[id].assets, x);
    }
    OneMoreRow(t, t1, t2, cs, done, id);
  }

  lemma OneMoreBatch(rows: seq<DeltaRow>, id: Id, ds: seq<AssetDelta>, x: Id)
    ensures DeltasFor(rows + DeltaRows(id, ds), x) == DeltasFor(rows, x) + if x == id then DeltaRows(id, ds) else []
  {
    DeltasForAppend(rows, DeltaRows(id, ds), x);
    DeltaRowsAreFor(id, ds, x);
  }

  lemma OneMoreRow(t: Tables, t1: Tables, t2: Tables, cs: Changesets, done: set<Id>, id: Id)
    requires ChangesetsInserted(t, t1, cs, done) && id in cs && id !in done && cs[id].id == id
    requires t2 == t1.(changesets := t1.changesets + [ChangesetRowOf(cs[id])],
                       deltas := t1.deltas + DeltaRows(id, cs[id].assets))
    ensures forall row :: row in t2.changesets <==>
              row in t.changesets || (row.id in done + {id} && row == ChangesetRowOf(cs[row.id]))
    ensures forall d :: d in t2.deltas ==> d in t.deltas || d.changesetId in done + {id}
  {
    DeltaRowsBelong(id, cs[id].assets);
  }

  /** Inserting a changeset id that another repository uses violates the primary key. */
  method InsertChangesets(t: Tables, cs: Changesets) returns (ok: bool, t': Tables)
    requires forall id :: id in cs ==> cs[id].id == id
    ensures ok <==> forall row :: row in t.changesets ==> row.id !in cs
    ensures ok ==> ChangesetsInserted(t, t', cs, cs.Keys)
  {
    t' := t;
    var rest := cs.Keys;
    assert forall id :: DeltasFor(t.deltas, id) == DeltasFor(t.deltas, id) + [];
    while rest != {}
      invariant rest <= cs.Keys
      invariant ChangesetsInserted(t, t', cs, cs.Keys - rest)
      invariant forall row :: row in t.changesets ==> row.id !in cs.Keys - rest
    {
      var id :| id in rest;
      if exists row :: row in t'.changesets && row.id == id {
        return false, t;
      }
      ghost var before := t';
      t' := t'.(changesets := t'.changesets + [ChangesetRowOf(cs[id])]);
      var deltas := InsertDeltas(t'.deltas, id, cs[id].assets);
      t' := t'.(deltas := deltas);
      OneMoreChangeset(t, before, t', cs, cs.Keys - rest, id);
      assert cs.Keys - rest + {id} == cs.Keys - (rest - {id});
      assert forall row :: row in t.changesets ==> row in before.changesets;
      rest := rest - {id};
    }
    assert cs.Keys - rest == cs.Keys;
    ok := true;
  }

  ghost predicate SnapshotsInserted(rows: seq<SnapshotRow>, rows': seq<SnapshotRow>, r: string,
                                    m: map<Id, Snapshot>, done: set<Id>) {
    && done <= m.Keys
    && (forall row :: row in rows' <==> row in rows || (IsRowOf(row, r, m) && row.changesetId in done))
  }

  ghost predicate OfSnapshot(row: SnapshotRow, r: string, id: Id, s: Snapshot, keys: set<string>)
    requires keys <= s.Keys
  {
    && row.assetId.Some? && row.assetId.value in keys
    && row == SnapshotRowOf(r, id, row.assetId.value, s[row.assetId.value])
  }

  ghost predicate OfBranches(row: BranchRow, r: string, m: map<string, BranchState>, names: set<string>)
    requires names <= m.Keys
  {
    row.name in names && row == BranchRowOf(r, m[row.name].record)
  }

  method InsertSnapshot(rows: seq<SnapshotRow>, r: string, id: Id, s: Snapshot) returns (rows': seq<SnapshotRow>)
    ensures forall row :: row in rows' <==> row in rows || OfSnapshot(row, r, id, s, s.Keys)
  {
    rows' := rows;
    var rest := s.Keys;
    while rest != {}
      invariant rest <= s.Keys
      invariant forall row :: row in rows' <==> row in rows || OfSnapshot(row, r, id, s, s.Keys - rest)
    {
      var key :| key in rest;
      rows' := rows' + [SnapshotRowOf(r, id, key, s[key])];
      rest := rest - {key};
    }
  }

  method InsertSnapshots(rows: seq<SnapshotRow>, r: string, m: map<Id, Snapshot>) returns (rows': seq<SnapshotRow>)
    ensures SnapshotsInserted(rows, rows', r, m, m.Keys)
  {
    rows' := rows;
    var rest := m.Keys;
    while rest != {}
      invariant rest <= m.Keys && SnapshotsInserted(rows, rows', r, m, m.Keys - rest)
    {
      var id :| id in rest;
      rows' := InsertSnapshot(rows', r, id, m[id]);
      rest := rest - {id};
    }
  }

  method InsertBranches(rows: seq<BranchRow>, r: string, m: map<string, BranchState>) returns (rows': seq<BranchRow>)
    requires forall name :: name in m ==> m[name].record.name == name
    ensures forall row :: row in rows' <==> row in rows || OfBranches(row, r, m, m.Keys)
  {
    rows' := rows;
    var rest := m.Keys;
    while rest != {}
      invariant rest <= m.Keys
      invariant forall row :: row in rows' <==> row in rows || OfBranches(row, r, m, m.Keys - rest)
    {
      var name :| name in rest;
      rows' := rows' + [BranchRowOf(r, m[name].record)];
      rest := rest - {name};
    }
  }

  lemma RecordsAreFiled(r: string, repo: Repo)
    requires RepoOk(r, repo)
    ensures forall id :: id in repo.changesets ==> repo.changesets[id].id == id && repo.changesets[id].repoId == r
    ensures forall name :: name in repo.branches ==> repo.branches[name].record.name == name
  {
    forall id | id in repo.changesets
      ensures repo.changesets[id].id == id && repo.changesets[id].repoId == r
    {
      assert RecordOk(r, repo, id);
    }
    forall name | name in repo.branches
      ensures repo.branches[name].record.name == name
    {
      assert BranchOk(repo, name);
    }
  }

  /** What the transaction leaves, from its parts. */
  ghost predicate Replaced(t0: Tables, t1: Tables, t: Tables, r: string, repo: Repo, who: string) {
    && ChangesetsInserted(Cleared(t0, r, who), t1, repo.changesets, repo.changesets.Keys)
    && (forall row :: row in Cleared(t0, r, who).changesets ==> row.id !in repo.changesets)
    && t.repos == t1.repos && t.changesets == t1.changesets && t.deltas == t1.deltas
    && (forall row :: row in t.branches <==>
          (row in t1.branches || OfBranches(row, r, repo.branches, repo.branches.Keys)))
    && SnapshotsInserted(t1.snapshots, t.snapshots, r, repo.snapshots, repo.snapshots.Keys)
  }

  lemma ReplacedIsHeld(t0: Tables, t1: Tables, t: Tables, r: string, repo: Repo, who: string)
    requires RepoOk(r, repo) && TablesOk(t0) && Replaced(t0, t1, t, r, repo, who)
    ensures Holds(t, r, repo)
  {
    var c := Cleared(t0, r, who);
    RecordsAreFiled(r, repo);
    ClearedIsOk(t0, r, who);
    forall id | id in repo.changesets
      ensures DeltasFor(t.deltas, id) == DeltaRows(id, repo.changesets[id].assets)
    {
      forall d | d in c.deltas
        ensures d.changesetId != id
      {
        var q :| HasChangeset(c.changesets, d.changesetId, q);
      }
      NoRowsFor(c.deltas, id);
    }
    forall name | name in repo.branches
      ensures BranchRowOf(r, repo.branches[name].record) in t.branches
    {
      assert OfBranches(BranchRowOf(r, repo.branches[name].record), r, repo.branches, repo.branches.Keys);
    }
    forall id, key | id in repo.snapshots && key in repo.snapshots[id]
      ensures SnapshotRowOf(r, id, key, repo.snapshots[id][key]) in t.snapshots
    {
      assert IsRowOf(SnapshotRowOf(r, id, key, repo.snapshots[id][key]), r, repo.snapshots);
    }
  }

  lemma ReplacedIsOk(t0: Tables, t1: Tables, t: Tables, r: string, repo: Repo, who: string)
    requires RepoOk(r, repo) && TablesOk(t0) && Replaced(t0, t1, t, r, repo, who)
    ensures TablesOk(t)
  {
    var c := Cleared(t0, r, who);
    RecordsAreFiled(r, repo);
    ClearedIsOk(t0, r, who);
    forall id, q | HasChangeset(c.changesets, id, q)
      ensures HasChangeset(t.changesets, id, q)
    {
      var row :| row in c.changesets && row.id == id && row.repoId == q;
      assert row in t.changesets;
    }
    forall id | id in repo.changesets
      ensures HasChangeset(t.changesets, id, r)
    {
      assert ChangesetRowOf(repo.changesets[id]) in t.changesets;
    }
    forall d | d in t.deltas
      ensures exists q :: HasChangeset(t.changesets, d.changesetId, q)
    {
      if d in c.deltas {
        var q :| HasChangeset(c.changesets, d.changesetId, q);
        assert HasChangeset(t.changesets, d.changesetId, q);
      } else {
        assert HasChangeset(t.changesets, d.changesetId, r);
      }
    }
  }

  lemma ReplacedKeepsOthers(t0: Tables, t1: Tables, t: Tables, r: string, repo: Repo, who: string)
    requires RepoOk(r, repo) && TablesOk(t0) && Replaced(t0, t1, t, r, repo, who)
    ensures OthersKept(t0, t, r)
  {
    var c := Cleared(t0, r, who);
    RecordsAreFiled(r, repo);
    ClearedIsOk(t0, r, who);
    forall id, q | q != r && HasChangeset(t0.changesets, id, q)
      ensures DeltasFor(t.deltas, id) == DeltasFor(t0.deltas, id)
    {
      var row :| row in t0.changesets && row.id == id && row.repoId == q;
      assert row in c.changesets;
      assert DeltasFor(c.deltas, id) == DeltasFor(t0.deltas, id);
      assert DeltasFor(c.deltas, id) + [] == DeltasFor(c.deltas, id);
    }
  }

  /** What one save transaction does: it fails exactly when a changeset id belongs to another repository, and
      then changes nothing; otherwise the tables hold the repository and everything of the others. */
  ghost predicate Replaces(t: Tables, t': Tables, r: string, repo: Repo, ok: bool) {
    && (ok <==> forall row :: row in t.changesets && row.repoId != r ==> row.id !in repo.changesets)
    && (ok ==> Holds(t', r, repo) && TablesOk(t') && OthersKept(t, t', r))
    && (!ok ==> t' == t)
  }

  /** What loading makes of the tables. */
  ghost function LoadedFrom(t: Tables): Repos {
    map r | r in t.repos :: RepoFrom(t, r, t.repos[r])
  }

  class VersionRepoPg {
    var tables: Tables

    constructor ()
      ensures tables == Tables(map[], [], [], [], [])
    {
      tables := Tables(map[], [], [], [], []);
    }

    /** One transaction: delete what the repository had, insert what it has. It is rolled back if a
        changeset id belongs to another repository. */
    method ReplaceRepoState(r: string, repo: Repo) returns (ok: bool)
      requires RepoOk(r, repo) && TablesOk(tables)
      modifies this
      ensures Replaces(old(tables), tables, r, repo, ok)
      ensures ok ==> tables.repos == old(tables).repos[r := repo.branches[repo.defaultBranch].record.createdBy]
    {
      var who := repo.branches[repo.defaultBranch].record.createdBy;
      RecordsAreFiled(r, repo);
      ClearedHas(tables, r, who);
      var cleared := Cleared(tables, r, who);
      var t: Tables;
      ok, t := InsertChangesets(cleared, repo.changesets);
      if !ok {
        return;
      }
      var snapshots := InsertSnapshots(t.snapshots, r, repo.snapshots);
      var branches := InsertBranches(t.branches, r, repo.branches);
      ghost var was, after := tables, t.(branches := branches, snapshots := snapshots);
      assert Replaced(was, t, after, r, repo, who);
      ReplacedIsHeld(was, t, after, r, repo, who);
      ReplacedIsOk(was, t, after, r, repo, who);
      ReplacedKeepsOthers(was, t, after, r, repo, who);
      tables := t.(branches := branches, snapshots := snapshots);
    }

    /** Every repository that has a row, rebuilt. The parent walk from each stored head must end. */
    method LoadRepos() returns (loaded: Repos)
      requires forall r :: r in tables.repos ==> WalksEnd(BareRepo(tables, r, tables.repos[r]))
      ensures loaded == LoadedFrom(tables)
    {
      loaded := map[];
      var rest := tables.repos.Keys;
      while rest != {}
        invariant rest <= tables.repos.Keys
        invariant loaded == map r | r in tables.repos.Keys - rest :: RepoFrom(tables, r, tables.repos[r])
      {
        var r :| r in rest;
        var repo := LoadRepo(tables, r, tables.repos[r]);
        loaded := loaded[r := repo];
        rest := rest - {r};
      }
    }
  }

  // ---- the row loops of a load

  ghost predicate WalksEnd(repo: Repo) {
    forall name :: name in repo.branches && repo.branches[name].record.head.Some? ==>
                     exists w :: Walk(repo.changesets, w, repo.branches[name].record.head.value)
  }

  method LoadBranches(rows: seq<BranchRow>, r: string) returns (branches: map<string, BranchState>, default: string)
    ensures branches == BranchesFrom(rows, r) && default == DefaultFrom(rows, r)
  {
    branches, default := map[], "main";
    for k := 0 to |rows|
      invariant branches == BranchesFrom(rows[..k], r) && default == DefaultFrom(rows[..k], r)
    {
      assert rows[..k + 1][..k] == rows[..k];
      var row := rows[k];
      if row.repoId == r {
        if row.isDefault {
          default := row.name;
        }
        var record := BranchRecord(row.name, row.createdBy, row.isDefault, row.head);
        branches := branches[row.name := BranchState(record, [])];
      }
    }
    assert rows[..|rows|] == rows;
  }

  method LoadChangesets(rows: seq<ChangesetRow>, deltas: seq<DeltaRow>, r: string) returns (cs: Changesets)
    ensures cs == WithDeltas(RecordsFrom(rows, r), deltas)
  {
    cs := map[];
    for k := 0 to |rows|
      invariant cs == RecordsFrom(rows[..k], r)
    {
      assert rows[..k + 1][..k] == rows[..k];
      if rows[k].repoId == r {
        cs := cs[rows[k].id := RecordFrom(rows[k])];
      }
    }
    assert rows[..|rows|] == rows;
    for k := 0 to |deltas|
      invariant cs == WithDeltas(RecordsFrom(rows, r), deltas[..k])
    {
      assert deltas[..k + 1][..k] == deltas[..k];
      var id := deltas[k].changesetId;
      if id in cs {
        cs := cs[id := cs[id].(assets := cs[id].assets + [DeltaFrom(deltas[k])])];
      }
    }
    assert deltas[..|deltas|] == deltas;
  }

  method LoadSnapshots(rows: seq<SnapshotRow>, r: string) returns (m: map<Id, Snapshot>)
    ensures m == SnapshotsFrom(rows, r)
  {
    m := map[];
    for k := 0 to |rows|
      invariant m == SnapshotsFrom(rows[..k], r)
    {
      assert rows[..k + 1][..k] == rows[..k];
      var row := rows[k];
      if row.repoId == r {
        var key := row.assetId.GetOr(row.path);
        if row.changesetId !in m {
          m := m[row.changesetId := map[]];
        }
        m := m[row.changesetId := m[row.changesetId][key := SnapshotAsset(key, row.path, row.blobHash)]];
      }
    }
    assert rows[..|rows|] == rows;
  }

  method LoadRepo(t: Tables, r: string, who: string) returns (repo: Repo)
    requires WalksEnd(BareRepo(t, r, who))
    ensures repo == RepoFrom(t, r, who)
  {
    var branches, default := LoadBranches(t.branches, r);
    var changesets := LoadChangesets(t.changesets, t.deltas, r);
    var snapshots := LoadSnapshots(t.snapshots, r);
    repo := Repo(default, branches, changesets, snapshots);
    if branches == map[] {
      repo := EnsureDefault(repo, who);
    }
    branches := RebuildHistories(repo);
    repo := repo.(branches := branches);
  }

  /** Each cached history is overwritten with the lineage of its branch head. */
  method RebuildHistories(repo: Repo) returns (branches: map<string, BranchState>)
    requires WalksEnd(repo)
    ensures branches == map name | name in repo.branches :: Rebuilt(repo.changesets, repo.branches[name])
  {
    branches := map[];
    var rest := repo.branches.Keys;
    while rest != {}
      invariant rest <= repo.branches.Keys
      invariant branches.Keys == repo.branches.Keys - rest
      invariant forall name :: name in branches ==> branches[name] == Rebuilt(repo.changesets, repo.branches[name])
    {
      var name :| name in rest;
      var b := repo.branches[name];
      var history: seq<Id> := [];
      if b.record.head.Some? {
        var lineage := LineageTo(repo.changesets, b.record.head.value);
        history := lineage.GetOr([]);
      }
      branches := branches[name := b.(history := history)];
      rest := rest - {name};
    }
  }

  /** Tables that hold a good repository can be loaded: its parent walks end. */
  lemma HeldWalksEnd(t: Tables, r: string, repo: Repo, who: string)
    requires Holds(t, r, repo) && RepoOk(r, repo)
    ensures WalksEnd(BareRepo(t, r, who))
  {
    BranchPartComesBack(t, r, repo);
    RecordPartComesBack(t, r, repo);
    forall name | name in repo.branches && repo.branches[name].record.head.Some?
      ensures exists w :: Walk(repo.changesets, w, repo.branches[name].record.head.value)
    {
      assert BranchOk(repo, name);
      assert Walk(repo.changesets, repo.branches[name].history, repo.branches[name].record.head.value);
    }
  }

  /** When the tables hold the present state, what is loaded from them is what the store's Restart step
      leaves. */
  lemma LoadIsRestart(t: Tables, repos: Repos, loaded: Repos)
    requires StoreOk(repos) && t.repos.Keys == repos.Keys
    requires forall r :: r in repos ==> Holds(t, r, repos[r])
    requires loaded.Keys == t.repos.Keys && forall r :: r in loaded ==> loaded[r] == RepoFrom(t, r, t.repos[r])
    ensures loaded == Step(repos, Restart)
  {
    forall r | r in repos
      ensures loaded[r] == DropEmpty(repos[r])
    {
      LoadsOne(t, repos, r);
    }
    DroppingEverywhereIsRestart(repos, loaded);
  }

  lemma LoadsOne(t: Tables, repos: Repos, r: string)
    requires StoreOk(repos) && t.repos.Keys == repos.Keys && r in repos && Holds(t, r, repos[r])
    ensures RepoFrom(t, r, t.repos[r]) == DropEmpty(repos[r])
  {
    LoadAfterSave(t, r, repos[r], t.repos[r]);
  }

  lemma DroppingEverywhereIsRestart(repos: Repos, loaded: Repos)
    requires loaded.Keys == repos.Keys && forall r :: r in repos ==> loaded[r] == DropEmpty(repos[r])
    ensures loaded == Step(repos, Restart)
  {
  }
}
