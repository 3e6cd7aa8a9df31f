/** The version store as values: repositories, the effect of each operation on one repository,
    and one step of the whole store. */
module Versioning {
  import opened Prelude
  import opened Deltas
  import opened Lineage

  const ROOT: Id := "ROOT"

  datatype Visibility = ShowNow | AsDraft

  datatype BranchRecord = BranchRecord(name: string, createdBy: string, isDefault: bool, head: Option<Id>)

  datatype BranchState = BranchState(record: BranchRecord, history: seq<Id>)

  datatype Repo = Repo(
    defaultBranch: string,
    branches: map<string, BranchState>,
    changesets: Changesets,
    snapshots: map<Id, Snapshot>)

  type Repos = map<string, Repo>

  datatype Error =
    | RepoAlreadyExists
    | RepoNotFound
    | BranchNotFound(branch: string)
    | BranchAlreadyExists(branch: string)
    | ChangesetNotFound(id: Id)
    | BaseRequired
    | BaseMismatch(branch: string, expected: Option<Id>, got: Option<Id>)
    | InvalidRollbackTarget(branch: string, target: Id)
    | InvalidState(id: Id, status: Status, needed: string)

  datatype SubmitInput = SubmitInput(
    repoId: string,
    branch: string,
    base: Option<Id>,
    kind: Kind,
    rollbackOf: Option<Id>,
    author: string,
    message: string,
    visibility: Visibility,
    assets: seq<AssetDelta>)

  function VisibleRef(branch: string): string {
    "refs/heads/" + branch
  }

  function StagingRef(repoId: string, branch: string, id: Id): string {
    "refs/ht/staging/" + repoId + "/" + branch + "/" + id
  }

  // ---- repositories

  function EnsureDefault(repo: Repo, who: string): Repo {
    if repo.defaultBranch in repo.branches then repo
    else repo.(branches := repo.branches[repo.defaultBranch :=
                 BranchState(BranchRecord(repo.defaultBranch, who, true, None), [])])
  }

  function NewRepo(defaultBranch: string, who: string): Repo {
    EnsureDefault(Repo(defaultBranch, map[], map[], map[]), who)
  }

  /** The repository an operation on `repoId` works in: it is created on first use. */
  function OpenRepo(repos: Repos, repoId: string, who: string): Repo {
    EnsureDefault(if repoId in repos then repos[repoId] else NewRepo("main", who), who)
  }

  function DefaultHead(repo: Repo): Option<Id> {
    if repo.defaultBranch in repo.branches then repo.branches[repo.defaultBranch].record.head else None
  }

  /** A missing snapshot reads as an empty one. */
  function SnapshotOf(repo: Repo, id: Id): Snapshot {
    if id in repo.snapshots then repo.snapshots[id] else map[]
  }

  function SnapshotAt(repo: Repo, at: Option<Id>): Snapshot {
    if at.Some? then SnapshotOf(repo, at.value) else map[]
  }

  // ---- the effect of one operation on one repository

  /** The branch record is stored with the lineage of its head as its history. */
  ghost function BranchResult(repo: Repo, branch: string, from: Option<Id>, who: string): Result<BranchState, Error> {
    if branch in repo.branches then Err(BranchAlreadyExists(branch))
    else if from.Some? && from.value !in repo.changesets then Err(ChangesetNotFound(from.value))
    else
      var head := if from.Some? then from else DefaultHead(repo);
      if head.None? then Ok(BranchState(BranchRecord(branch, who, false, None), []))
      else
        var lineage := LineageOf(repo.changesets, head.value);
        if lineage.None? then Err(ChangesetNotFound(head.value))
        else Ok(BranchState(BranchRecord(branch, who, false, head), lineage.value))
  }

  ghost function BranchEffect(repo: Repo, branch: string, from: Option<Id>, who: string): Repo {
    var r := BranchResult(repo, branch, from, who);
    if r.Ok? then repo.(branches := repo.branches[branch := r.value]) else repo
  }

  /** A first commit names ROOT as its base; every other submit names the branch head. */
  function SubmitError(repo: Repo, input: SubmitInput): Option<Error> {
    if input.base.None? then Some(BaseRequired)
    else if input.branch !in repo.branches then Some(BranchNotFound(input.branch))
    else
      var head := repo.branches[input.branch].record.head;
      if head.None? && input.base != Some(ROOT) then Some(BaseMismatch(input.branch, head, input.base))
      else if head.Some? && input.base != head then Some(BaseMismatch(input.branch, head, input.base))
      else None
  }

  function SubmittedRecord(repo: Repo, input: SubmitInput, id: Id): Changeset
    requires input.branch in repo.branches
  {
    var head := repo.branches[input.branch].record.head;
    Changeset(
      id, input.repoId, input.branch, head, input.base, input.kind, input.rollbackOf, input.author, input.message,
      if input.visibility == ShowNow then Visible else Draft,
      None,
      if input.visibility == ShowNow then None else Some(StagingRef(input.repoId, input.branch, id)),
      if input.visibility == ShowNow then Some(VisibleRef(input.branch)) else None,
      Normalise(SnapshotAt(repo, head), input.assets))
  }

  /** A new head at the end of the history. */
  function Advance(b: BranchState, id: Id): BranchState {
    BranchState(b.record.(head := Some(id)), b.history + [id])
  }

  function SubmitEffect(repo: Repo, input: SubmitInput, id: Id): Repo {
    if SubmitError(repo, input).Some? then repo
    else
      var b := repo.branches[input.branch];
      repo.(
      changesets := repo.changesets[id := SubmittedRecord(repo, input, id)],
      snapshots := repo.snapshots[id := ApplyDeltas(SnapshotAt(repo, b.record.head), input.assets)],
      branches := if input.visibility == ShowNow then repo.branches[input.branch := Advance(b, id)] else repo.branches)
  }

  function SubmitResult(repo: Repo, input: SubmitInput, id: Id): Result<Changeset, Error> {
    var e := SubmitError(repo, input);
    if e.Some? then Err(e.value) else Ok(SubmittedRecord(repo, input, id))
  }

  function ApproveError(repo: Repo, id: Id): Option<Error> {
    if id !in repo.changesets then Some(ChangesetNotFound(id))
    else if repo.changesets[id].status != Draft then Some(InvalidState(id, repo.changesets[id].status, "draft"))
    else None
  }

  function ApproveEffect(repo: Repo, id: Id, who: string): Repo {
    if ApproveError(repo, id).Some? then repo
    else repo.(changesets := repo.changesets[id :=
                 repo.changesets[id].(status := Approved, approvedBy := Some(who))])
  }

  function PromoteError(repo: Repo, id: Id): Option<Error> {
    if id !in repo.changesets then Some(ChangesetNotFound(id))
    else
      var c := repo.changesets[id];
      if c.status != Approved then Some(InvalidState(id, c.status, "approved"))
      else if c.branch !in repo.branches then Some(BranchNotFound(c.branch))
      else
        var head := repo.branches[c.branch].record.head;
        if head != c.base then Some(BaseMismatch(c.branch, head, c.base)) else None
  }

  /** Promotion leaves a history alone that already holds the changeset. */
  function PromoteEffect(repo: Repo, id: Id, who: string): Repo {
    if PromoteError(repo, id).Some? then repo
    else
      var c := repo.changesets[id];
      var b := repo.branches[c.branch];
      var b' := if id in b.history then b.(record := b.record.(head := Some(id))) else Advance(b, id);
      repo.(
      branches := repo.branches[c.branch := b'],
      changesets := repo.changesets[id := c.(
        status := Visible,
        approvedBy := if c.approvedBy.None? then Some(who) else c.approvedBy,
        visibleRef := Some(VisibleRef(c.branch)))])
  }

  /** What a restart from the database leaves of a repository: an empty snapshot has no rows. */
  function DropEmpty(repo: Repo): Repo {
    repo.(snapshots := map id | id in repo.snapshots && repo.snapshots[id] != map[] :: repo.snapshots[id])
  }

  // ---- one step of the store

  datatype Op =
    | CreateRepo(repoId: string, defaultBranch: string, who: string)
    | CreateBranch(repoId: string, branch: string, from: Option<Id>, who: string)
    | Submit(input: SubmitInput, newId: Id)
    | Approve(repoId: string, id: Id, who: string)
    | Promote(repoId: string, id: Id, who: string)
    | Restart

  ghost predicate FreshId(repos: Repos, id: Id) {
    id != ROOT && forall r :: r in repos ==> id !in repos[r].changesets
  }

  /** Generated ids are fresh and are not the word ROOT. */
  ghost predicate Legal(repos: Repos, op: Op) {
    op.Submit? ==> FreshId(repos, op.newId)
  }

  ghost function Step(repos: Repos, op: Op): Repos {
    match op
    case CreateRepo(r, d, who) =>
      if r in repos then repos else repos[r := NewRepo(d, who)]
    case CreateBranch(r, b, from, who) =>
      repos[r := BranchEffect(OpenRepo(repos, r, who), b, from, who)]
    case Submit(input, id) =>
      repos[input.repoId := SubmitEffect(OpenRepo(repos, input.repoId, input.author), input, id)]
    case Approve(r, id, who) =>
      if r in repos then repos[r := ApproveEffect(repos[r], id, who)] else repos
    case Promote(r, id, who) =>
      if r in repos then repos[r := PromoteEffect(repos[r], id, who)] else repos
    case Restart =>
      map r | r in repos :: DropEmpty(repos[r])
  }

  /** The error each operation reports, if any. */
  ghost function Outcome(repos: Repos, op: Op): Option<Error> {
    match op
    case CreateRepo(r, d, who) => if r in repos then Some(RepoAlreadyExists) else None
    case CreateBranch(r, b, from, who) =>
      var result := BranchResult(OpenRepo(repos, r, who), b, from, who);
      if result.Err? then Some(result.error) else None
    case Submit(input, id) => SubmitError(OpenRepo(repos, input.repoId, input.author), input)
    case Approve(r, id, who) => if r in repos then ApproveError(repos[r], id) else Some(RepoNotFound)
    case Promote(r, id, who) => if r in repos then PromoteError(repos[r], id) else Some(RepoNotFound)
    case Restart => None
  }

  ghost predicate LegalRun(repos: Repos, ops: seq<Op>)
    decreases |ops|
  {
    ops == [] || (Legal(repos, ops[0]) && LegalRun(Step(repos, ops[0]), ops[1..]))
  }

  ghost function Exec(repos: Repos, ops: seq<Op>): Repos
    decreases |ops|
  {
    if ops == [] then repos else Exec(Step(repos, ops[0]), ops[1..])
  }

  /** Some legal run leads from one state of the store to another. */
  ghost predicate Leads(repos: Repos, repos': Repos) {
    exists ops :: LegalRun(repos, ops) && Exec(repos, ops) == repos'
  }

  ghost predicate Reachable(repos: Repos) {
    Leads(map[], repos)
  }
}
