/** Parent links between changesets, and the walk `lineage_to` takes along them. */
module Lineage {
  import opened Prelude
  import opened Deltas

  type Id = string

  datatype Kind = Normal | Rollback

  datatype Status = Draft | Approved | Visible

  datatype Changeset = Changeset(
    id: Id,
    repoId: string,
    branch: string,
    parent: Option<Id>,
    base: Option<Id>,
    kind: Kind,
    rollbackOf: Option<Id>,
    author: string,
    message: string,
    status: Status,
    approvedBy: Option<string>,
    stagingRef: Option<string>,
    visibleRef: Option<string>,
    assets: seq<AssetDelta>)

  type Changesets = map<Id, Changeset>

  /** Position k of a walk is the child of position k - 1. */
  ghost predicate Linked(cs: Changesets, w: seq<Id>, k: int) {
    0 < k < |w| ==> w[k] in cs && cs[w[k]].parent == Some(w[k - 1])
  }

  /** The parent walk from `id`, oldest first: it stops at a parentless changeset or at an id that
      names no changeset. */
  ghost predicate Walk(cs: Changesets, w: seq<Id>, id: Id) {
    && w != [] && Last(w) == id
    && (w[0] in cs ==> cs[w[0]].parent == None)
    && forall k {:trigger Linked(cs, w, k)} :: 0 < k < |w| ==> Linked(cs, w, k)
  }

  /** A complete lineage: the walk reached a parentless changeset. */
  ghost predicate ChainTo(cs: Changesets, w: seq<Id>, id: Id) {
    Walk(cs, w, id) && w[0] in cs
  }

  /** The parent walk from `id` ends at a parentless changeset. */
  ghost predicate Grounded(cs: Changesets, id: Id) {
    exists w :: ChainTo(cs, w, id)
  }

  /** `lineage_to`, defined on every map: None where the walk dangles or never ends. */
  ghost function LineageOf(cs: Changesets, id: Id): (r: Option<seq<Id>>)
    ensures r.Some? <==> Grounded(cs, id)
    ensures r.Some? ==> ChainTo(cs, r.value, id)
  {
    if Grounded(cs, id) then
      var w :| ChainTo(cs, w, id);
      Some(w)
    else None
  }

  /** The server's walk: push each id, follow its parent, reverse at the end. It is only run where
      the parent links end. */
  method LineageTo(cs: Changesets, id: Id) returns (r: Option<seq<Id>>)
    requires exists w :: Walk(cs, w, id)
    ensures r == LineageOf(cs, id)
  {
    ghost var w :| Walk(cs, w, id);
    ghost var left := w;
    var chain: seq<Id> := [];
    var current := Some(id);
    while current.Some?
      invariant left <= w
      invariant current.Some? ==> left != [] && current.value == Last(left)
      invariant current.None? ==> left == [] && w[0] in cs
      invariant w == left + Reverse(chain)
      decreases left
    {
      if current.value !in cs {
        assert Linked(cs, w, |left| - 1);
        if Grounded(cs, id) {
          var v :| ChainTo(cs, v, id);
          WalkIsUnique(cs, v, w, id);
        }
        assert !Grounded(cs, id);
        return None;
      }
      assert [Last(left)] + Reverse(chain) == Reverse(chain + [current.value]) by {
        assert (chain + [current.value])[..|chain|] == chain;
      }
      chain := chain + [current.value];
      current := cs[current.value].parent;
      assert Linked(cs, w, |left| - 1);
      left := left[..|left| - 1];
    }
    r := Some(Reverse(chain));
    assert w == Reverse(chain);
    assert ChainTo(cs, w, id);
    WalkIsUnique(cs, LineageOf(cs, id).value, w, id);
  }

  lemma {:induction false} WalkIsUnique(cs: Changesets, v: seq<Id>, w: seq<Id>, id: Id)
    requires Walk(cs, v, id) && Walk(cs, w, id)
    ensures v == w
    decreases |v|
  {
    assert Linked(cs, v, |v| - 1) && Linked(cs, w, |w| - 1);
    if |v| > 1 {
      var p := cs[id].parent.value;
      PrefixIsWalk(cs, v, id, |v| - 2);
      PrefixIsWalk(cs, w, id, |w| - 2);
      WalkIsUnique(cs, v[..|v| - 1], w[..|w| - 1], p);
      assert v == v[..|v| - 1] + [id] && w == w[..|w| - 1] + [id];
    }
  }

  lemma PrefixIsWalk(cs: Changesets, w: seq<Id>, id: Id, k: nat)
    requires Walk(cs, w, id) && k < |w|
    ensures Walk(cs, w[..k + 1], w[k])
  {
    var p := w[..k + 1];
    forall j | 0 < j < |p|
      ensures Linked(cs, p, j)
    {
      assert Linked(cs, w, j);
    }
  }

  /** No changeset occurs twice in a lineage. */
  lemma WalkHasNoDuplicates(cs: Changesets, w: seq<Id>, id: Id)
    requires Walk(cs, w, id)
    ensures NoDuplicates(w)
  {
    forall i, j | 0 <= i < j < |w|
      ensures w[i] != w[j]
    {
      if w[i] == w[j] {
        PrefixIsWalk(cs, w, id, i);
        PrefixIsWalk(cs, w, id, j);
        WalkIsUnique(cs, w[..i + 1], w[..j + 1], w[i]);
      }
    }
  }

  /** Changesets are only added, and never change parents. */
  ghost predicate KeepsParents(cs: Changesets, cs': Changesets) {
    forall id :: id in cs ==> id in cs' && cs'[id].parent == cs[id].parent
  }

  lemma ChainPersists(cs: Changesets, cs': Changesets, w: seq<Id>, id: Id)
    requires ChainTo(cs, w, id) && KeepsParents(cs, cs')
    ensures ChainTo(cs', w, id)
  {
    forall k | 0 < k < |w|
      ensures Linked(cs', w, k)
    {
      assert Linked(cs, w, k);
    }
  }

  lemma ChainExtends(cs: Changesets, w: seq<Id>, id: Id, child: Id)
    requires ChainTo(cs, w, id) && child in cs && cs[child].parent == Some(id)
    ensures ChainTo(cs, w + [child], child)
  {
    var p := w + [child];
    forall k | 0 < k < |p|
      ensures Linked(cs, p, k)
    {
      assert Linked(cs, w, k);
    }
  }

  /** Everything on a lineage is a changeset, and the parent comes just before. */
  lemma OnChain(cs: Changesets, w: seq<Id>, id: Id)
    requires ChainTo(cs, w, id)
    ensures forall k :: 0 <= k < |w| ==> w[k] in cs
    ensures cs[id].parent == if |w| == 1 then None else Some(w[|w| - 2])
  {
    forall k | 0 <= k < |w|
      ensures w[k] in cs
    {
      assert Linked(cs, w, k);
    }
    assert Linked(cs, w, |w| - 1);
  }
}
