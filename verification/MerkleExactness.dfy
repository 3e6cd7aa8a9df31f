/** Which lists with distinct indices their Merkle root determines even among lists with repeated ones: exactly
    those whose trees repeat no node, that is, whose length is a power of two. */
module MerkleExactness {
  import opened Prelude
  import opened Hashing
  import opened Chunking
  import opened Merkle

  /** No level of the tree is odd. */
  predicate NothingRepeated(n: nat) {
    n <= 1 || (n % 2 == 0 && NothingRepeated(n / 2))
  }

  /** That is so exactly for powers of two (and no chunk at all). */
  lemma {:induction false} NothingRepeatedIffPower(n: nat)
    ensures NothingRepeated(n) <==> n == 0 || n == Pow2(Depth(n))
  {
    if n > 1 {
      NothingRepeatedIffPower((n + 1) / 2);
    }
  }

  // ---- a full tree determines its list

  /** Like `Sound`, for a level that may repeat nodes. */
  ghost predicate Hashable(level: seq<string>, hash: Hash, inputs: set<string>) {
    level != [] && Digests(level) && NodeTexts(level, hash) <= inputs
  }

  lemma UpIsHashable(level: seq<string>, hash: Hash, inputs: set<string>)
    requires YieldsDigests(hash) && Hashable(level, hash, inputs) && |level| > 1
    ensures Hashable(Up(level, hash), hash, inputs) && (set t | t in PairTexts(level)) <= inputs
  {
  }

  /** A level without repeats and of even length is determined by its pairs among all levels. */
  lemma EvenLevelDetermined(s: seq<string>, t: seq<string>)
    requires Digests(s) && NoDuplicates(s) && |s| % 2 == 0 && Digests(t) && PairTexts(s) == PairTexts(t)
    ensures s == t
  {
    assert |PairTexts(s)| == (|s| + 1) / 2 && |PairTexts(t)| == (|t| + 1) / 2;
    forall k | 0 <= k < |s| && k < |t|
      ensures s[k] == t[k]
    {
      SameChildren(s, t, k / 2);
    }
    if |s| != |t| {
      SameChildren(s, t, |PairTexts(s)| - 1);
    }
  }

  lemma {:induction false} FullTreeDetermined(s: seq<string>, t: seq<string>, hash: Hash, inputs: set<string>)
    requires YieldsDigests(hash) && NoCollision(hash, inputs) && NothingRepeated(|s|)
    requires Sound(s, hash, inputs) && Hashable(t, hash, inputs)
    requires Depth(|s|) == Depth(|t|) && Top(s, hash) == Top(t, hash)
    ensures s == t
    decreases |s|
  {
    if |s| > 1 {
      UpIsSound(s, hash, inputs);
      UpIsHashable(t, hash, inputs);
      assert |Up(s, hash)| == |s| / 2;
      FullTreeDetermined(Up(s, hash), Up(t, hash), hash, inputs);
      HashesDetermineTexts(PairTexts(s), PairTexts(t), hash, inputs);
      EvenLevelDetermined(s, t);
    }
  }

  /** Climb a deeper tree to a given depth. */
  lemma {:induction false} ClimbAny(level: seq<string>, d: nat, hash: Hash, inputs: set<string>)
    returns (up: seq<string>)
    requires YieldsDigests(hash) && Hashable(level, hash, inputs) && d < Depth(|level|)
    ensures Hashable(up, hash, inputs) && Depth(|up|) == d && Top(up, hash) == Top(level, hash)
    ensures HasInnerNode(up, hash, inputs)
    decreases |level|
  {
    UpIsHashable(level, hash, inputs);
    up := Up(level, hash);
    if d < Depth(|up|) {
      up := ClimbAny(up, d, hash, inputs);
    } else {
      assert PairTexts(level)[0] == level[0] + level[1];
      assert PairTexts(level)[0] in inputs;
      assert IsDigest(level[0]) && IsDigest(level[1]) && up[0] == hash(level[0] + level[1]);
    }
  }

  /** Climbing a full tree gives a full tree. */
  lemma {:induction false} ClimbFull(level: seq<string>, d: nat, hash: Hash, inputs: set<string>)
    returns (up: seq<string>)
    requires YieldsDigests(hash) && NoCollision(hash, inputs) && NothingRepeated(|level|)
    requires Sound(level, hash, inputs) && d < Depth(|level|)
    ensures Sound(up, hash, inputs) && NothingRepeated(|up|)
    ensures Depth(|up|) == d && Top(up, hash) == Top(level, hash) && HasInnerNode(up, hash, inputs)
    decreases |level|
  {
    UpIsSound(level, hash, inputs);
    up := Up(level, hash);
    assert |up| == |level| / 2;
    if d < Depth(|up|) {
      up := ClimbFull(up, d, hash, inputs);
    } else {
      assert PairTexts(level)[0] == level[0] + level[1];
      assert PairTexts(level)[0] in inputs;
      assert IsDigest(level[0]) && IsDigest(level[1]) && up[0] == hash(level[0] + level[1]);
    }
  }

  lemma LeavesAreHashable(chunks: seq<ManifestChunk>, hash: Hash, inputs: set<string>)
    requires YieldsDigests(hash) && Hashed(chunks, hash) <= inputs && chunks != []
    ensures Hashable(HashAll(LeafTexts(chunks), hash), hash, inputs)
  {
  }

  lemma FullListDetermined(a: seq<ManifestChunk>, b: seq<ManifestChunk>, hash: Hash, inputs: set<string>)
    requires YieldsDigests(hash) && NoCollision(hash, inputs)
    requires Hashed(a, hash) <= inputs && Hashed(b, hash) <= inputs
    requires DistinctIndices(a) && NothingRepeated(|a|) && a != [] && b != [] && Root(a, hash) == Root(b, hash)
    ensures a == b
  {
    var s, t := HashAll(LeafTexts(a), hash), HashAll(LeafTexts(b), hash);
    LeavesAreSound(a, hash, inputs);
    LeavesAreHashable(b, hash, inputs);
    LeavesAreNotInner(a, hash, inputs);
    LeavesAreNotInner(b, hash, inputs);
    if Depth(|a|) < Depth(|b|) {
      var up := ClimbAny(t, Depth(|a|), hash, inputs);
      FullTreeDetermined(s, up, hash, inputs);
      assert false;
    } else if Depth(|b|) < Depth(|a|) {
      var up := ClimbFull(s, Depth(|b|), hash, inputs);
      FullTreeDetermined(up, t, hash, inputs);
      assert false;
    } else {
      FullTreeDetermined(s, t, hash, inputs);
      HashesDetermineTexts(LeafTexts(a), LeafTexts(b), hash, inputs);
      SameLeafTexts(a, b);
    }
  }

  lemma EmptyListDetermined(b: seq<ManifestChunk>, hash: Hash, inputs: set<string>)
    requires YieldsDigests(hash) && NoCollision(hash, inputs)
    requires "" in inputs && Hashed(b, hash) <= inputs && b != []
    ensures hash("") != Root(b, hash)
  {
    var t := HashAll(LeafTexts(b), hash);
    LeavesAreHashable(b, hash, inputs);
    if |t| == 1 {
      assert LeafTexts(b)[0] in inputs;
      assert LeafText(b[0]) != "";
    } else {
      var up := ClimbAny(t, 0, hash, inputs);
      assert |up| == 1;
      var l, r :| IsDigest(l) && IsDigest(r) && l + r in inputs && up[0] == hash(l + r);
      assert l + r != "";
    }
  }

  // ---- every other tree has a double

  /** How many last entries of a list may be repeated without a change of the root. */
  function Extra(n: nat): nat {
    if n <= 1 then 0 else if n % 2 == 1 then 1 else 2 * Extra(n / 2)
  }

  lemma {:induction false} ExtraFits(n: nat)
    ensures Extra(n) <= n && (n > 1 && n % 2 == 0 ==> Extra(n) % 2 == 0)
    ensures Extra(n) == 0 <==> NothingRepeated(n)
  {
    if n > 1 && n % 2 == 0 {
      ExtraFits(n / 2);
    }
  }

  function Longer<T>(s: seq<T>): seq<T> {
    ExtraFits(|s|);
    s + s[|s| - Extra(|s|)..]
  }

  lemma LongerPairsOdd(level: seq<string>)
    requires |level| > 1 && |level| % 2 == 1
    ensures PairTexts(Longer(level)) == PairTexts(level)
  {
    assert Longer(level) == level + [Last(level)];
    assert |PairTexts(Longer(level))| == |PairTexts(level)|;
    forall k | 0 <= k < |PairTexts(level)|
      ensures PairText(Longer(level), k) == PairText(level, k)
    {
    }
  }

  lemma LongerPairsEven(level: seq<string>)
    requires |level| > 1 && |level| % 2 == 0
    ensures PairTexts(Longer(level)) == Longer(PairTexts(level))
  {
    var longer, pairs, e := Longer(level), PairTexts(level), Extra(|level| / 2);
    ExtraFits(|level|);
    ExtraFits(|level| / 2);
    assert |pairs| == |level| / 2 && |longer| == |level| + 2 * e;
    forall k | 0 <= k < |pairs| + e
      ensures PairText(longer, k) == Longer(pairs)[k]
    {
      if k >= |pairs| {
        assert longer[2 * k] == level[2 * (k - e)] && longer[2 * k + 1] == level[2 * (k - e) + 1];
      }
    }
  }

  lemma HashLonger(texts: seq<string>, hash: Hash)
    ensures HashAll(Longer(texts), hash) == Longer(HashAll(texts, hash))
  {
    var hashes, e := HashAll(texts, hash), Extra(|texts|);
    ExtraFits(|texts|);
    assert |hashes| == |texts|;
    forall k | 0 <= k < |texts| + e
      ensures HashAll(Longer(texts), hash)[k] == Longer(hashes)[k]
    {
      assert k >= |texts| ==> Longer(texts)[k] == texts[k - e] && Longer(hashes)[k] == hashes[k - e];
    }
  }

  /** The longer level has the same top, and hashes nothing new. */
  lemma {:induction false} LongerSameTop(level: seq<string>, hash: Hash)
    requires level != []
    ensures Longer(level) != [] && Top(Longer(level), hash) == Top(level, hash)
    ensures NodeTexts(Longer(level), hash) == NodeTexts(level, hash)
    decreases |level|
  {
    if |level| == 1 {
      assert Longer(level) == level;
    } else if |level| % 2 == 1 {
      LongerPairsOdd(level);
    } else {
      LongerPairsEven(level);
      HashLonger(PairTexts(level), hash);
      LongerSameTop(Up(level, hash), hash);
      SameMembersLonger(PairTexts(level));
    }
  }

  lemma SameMembersLonger<T>(s: seq<T>)
    ensures (set x | x in Longer(s)) == (set x | x in s)
  {
  }

  lemma LongerHasSameRoot(a: seq<ManifestChunk>, hash: Hash)
    requires a != []
    ensures Root(Longer(a), hash) == Root(a, hash) && Hashed(Longer(a), hash) == Hashed(a, hash)
  {
    var texts, e := LeafTexts(a), Extra(|a|);
    ExtraFits(|a|);
    assert |texts| == |a|;
    forall k | 0 <= k < |a| + e
      ensures LeafTexts(Longer(a))[k] == Longer(texts)[k]
    {
      assert k >= |a| ==> Longer(a)[k] == a[k - e] && Longer(texts)[k] == texts[k - e];
    }
    assert LeafTexts(Longer(a)) == Longer(texts);
    HashLonger(texts, hash);
    LongerSameTop(HashAll(texts, hash), hash);
    SameMembersLonger(texts);
  }

  /** The two lists have the same root, and it is not for a collision among the texts they hash. */
  ghost predicate ShareRoot(a: seq<ManifestChunk>, b: seq<ManifestChunk>, hash: Hash) {
    NoCollision(hash, Hashed(a, hash) + Hashed(b, hash)) && Root(b, hash) == Root(a, hash)
  }

  lemma DoubleSharesRoot(a: seq<ManifestChunk>, hash: Hash)
    requires NoCollision(hash, Hashed(a, hash)) && a != []
    ensures ShareRoot(a, Longer(a), hash)
  {
    LongerHasSameRoot(a, hash);
    SameInputsTwice(hash, Hashed(a, hash), Hashed(Longer(a), hash));
  }

  lemma SameInputsTwice(hash: Hash, inputs: set<Bytes>, inputs': set<Bytes>)
    requires inputs == inputs' && NoCollision(hash, inputs)
    ensures NoCollision(hash, inputs + inputs')
  {
    assert inputs + inputs' == inputs;
  }

  lemma LongerIsLonger<T>(s: seq<T>)
    requires !NothingRepeated(|s|)
    ensures |Longer(s)| > |s|
  {
    ExtraFits(|s|);
  }

  /** Among all chunk lists, a list with distinct indices is the only one with its root exactly when its length
      is a power of two, or zero. Otherwise repeating its last entries gives the same root. */
  lemma RootDeterminesAmongAllIff(a: seq<ManifestChunk>, hash: Hash)
    requires YieldsDigests(hash) && DistinctIndices(a) && NoCollision(hash, Hashed(a, hash))
    ensures (forall b :: ShareRoot(a, b, hash) ==> b == a) <==> a == [] || |a| == Pow2(Depth(|a|))
  {
    NothingRepeatedIffPower(|a|);
    if NothingRepeated(|a|) {
      forall b | ShareRoot(a, b, hash)
        ensures b == a
      {
        OnlyListWithRoot(a, b, hash);
      }
    } else {
      LongerIsLonger(a);
      DoubleSharesRoot(a, hash);
    }
  }

  lemma OnlyListWithRoot(a: seq<ManifestChunk>, b: seq<ManifestChunk>, hash: Hash)
    requires YieldsDigests(hash) && DistinctIndices(a) && NothingRepeated(|a|)
    requires ShareRoot(a, b, hash)
    ensures b == a
  {
    var inputs := Hashed(a, hash) + Hashed(b, hash);
    if a == [] && b != [] {
      EmptyListDetermined(b, hash, inputs);
    } else if a != [] && b == [] {
      EmptyListDetermined(a, hash, inputs);
    } else if a != [] {
      FullListDetermined(a, b, hash, inputs);
    }
  }
}
