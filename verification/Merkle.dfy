/** The Merkle root of a manifest, and why it determines the chunk list although odd levels repeat their
    last node and lists of different lengths give trees of different depths. */
module Merkle {
  import opened Prelude
  import opened Hashing
  import opened Decimals
  import opened Chunking

  function LeafText(c: ManifestChunk): string {
    Decimal(c.i) + ":" + c.chunkHash + ":" + Decimal(c.size)
  }

  function LeafTexts(chunks: seq<ManifestChunk>): seq<string> {
    seq(|chunks|, k requires 0 <= k < |chunks| => LeafText(chunks[k]))
  }

  function HashAll(texts: seq<string>, hash: Hash): seq<string> {
    seq(|texts|, k requires 0 <= k < |texts| => hash(texts[k]))
  }

  /** The text of parent k: its two children, or its only child twice. */
  function PairText(level: seq<string>, k: nat): string
    requires 2 * k < |level|
  {
    level[2 * k] + (if 2 * k + 1 < |level| then level[2 * k + 1] else level[2 * k])
  }

  function PairTexts(level: seq<string>): seq<string> {
    seq((|level| + 1) / 2, k requires 0 <= k < (|level| + 1) / 2 => PairText(level, k))
  }

  function Up(level: seq<string>, hash: Hash): seq<string> {
    HashAll(PairTexts(level), hash)
  }

  function Top(level: seq<string>, hash: Hash): string
    requires level != []
    decreases |level|
  {
    if |level| == 1 then level[0] else Top(Up(level, hash), hash)
  }

  function Root(chunks: seq<ManifestChunk>, hash: Hash): string {
    if chunks == [] then hash("") else Top(HashAll(LeafTexts(chunks), hash), hash)
  }

  /** Levels above n nodes. */
  function Depth(n: nat): nat {
    if n <= 1 then 0 else 1 + Depth((n + 1) / 2)
  }

  function Pow2(d: nat): nat {
    if d == 0 then 1 else 2 * Pow2(d - 1)
  }

  /** The depth is the logarithm of the number of nodes, rounded up. */
  lemma {:induction false} DepthIsLog2(n: nat, d: nat)
    ensures Depth(n) <= d <==> n <= Pow2(d)
  {
    Pow2IsPositive(d);
    if n > 1 && d > 0 {
      DepthIsLog2((n + 1) / 2, d - 1);
    }
  }

  lemma {:induction false} Pow2IsPositive(d: nat)
    ensures Pow2(d) >= 1
    ensures d > 0 ==> Pow2(d) >= 2
  {
    if d > 0 {
      Pow2IsPositive(d - 1);
    }
  }

  /** Replace the level by its parents until one node is left; that takes `Depth` rounds. */
  method MerkleRoot(chunks: seq<ManifestChunk>, hash: Hash) returns (root: string, ghost rounds: nat)
    ensures root == Root(chunks, hash) && rounds == Depth(|chunks|)
  {
    rounds := 0;
    if chunks == [] {
      root := hash("");
      return;
    }
    var level := HashAll(LeafTexts(chunks), hash);
    while |level| > 1
      invariant level != [] && Top(level, hash) == Root(chunks, hash)
      invariant rounds + Depth(|level|) == Depth(|chunks|)
    {
      var next := [];
      var at := 0;
      while at < |level|
        invariant at == 2 * |next| && |next| <= (|level| + 1) / 2
        invariant next == Up(level, hash)[..|next|]
      {
        var left := level[at];
        var right := if at + 1 < |level| then level[at + 1] else level[at];
        assert left + right == PairText(level, |next|);
        next := next + [hash(left + right)];
        at := at + 2;
      }
      assert next == Up(level, hash);
      level := next;
      rounds := rounds + 1;
    }
    root := level[0];
  }

  // ---- the tree from its root down

  function LevelSize(n: nat, d: nat): nat {
    if d == 0 then n else (LevelSize(n, d - 1) + 1) / 2
  }

  lemma {:induction false} LevelSizeAbove(n: nat, d: nat)
    ensures LevelSize((n + 1) / 2, d) == LevelSize(n, d + 1)
  {
    if d > 0 {
      LevelSizeAbove(n, d - 1);
    }
  }

  /** The right child, or the left one again. */
  function RightOf(n: nat, d: nat, k: nat): nat {
    if 2 * k + 1 < LevelSize(n, d) then 2 * k + 1 else 2 * k
  }

  /** Node number k, d levels above the leaves: the hash of its left child and then its right one, or twice of its
      left one where there is no right one. */
  function Node(leaves: seq<string>, d: nat, k: nat, hash: Hash): string
    requires k < LevelSize(|leaves|, d)
  {
    if d == 0 then leaves[k]
    else
      hash(Node(leaves, d - 1, 2 * k, hash) + Node(leaves, d - 1, RightOf(|leaves|, d - 1, k), hash))
  }

  lemma ParentOfLeaves(level: seq<string>, k: nat, hash: Hash)
    requires k < LevelSize(|level|, 1)
    ensures k < |Up(level, hash)| && Up(level, hash)[k] == Node(level, 1, k, hash)
  {
    assert LevelSize(|level|, 0) == |level|;
    assert Node(level, 0, 2 * k, hash) == level[2 * k];
    assert Up(level, hash)[k] == hash(PairText(level, k));
  }

  lemma {:induction false} NodeAbove(level: seq<string>, d: nat, k: nat, hash: Hash)
    requires k < LevelSize(|level|, d + 1)
    ensures k < LevelSize((|level| + 1) / 2, d) && Node(Up(level, hash), d, k, hash) == Node(level, d + 1, k, hash)
  {
    LevelSizeAbove(|level|, d);
    if d == 0 {
      ParentOfLeaves(level, k, hash);
    } else {
      LevelSizeAbove(|level|, d - 1);
      NodeAbove(level, d - 1, 2 * k, hash);
      NodeAbove(level, d - 1, RightOf(|level|, d, k), hash);
    }
  }

  lemma {:induction false} TopIsNode(level: seq<string>, hash: Hash)
    requires level != []
    ensures LevelSize(|level|, Depth(|level|)) == 1
    ensures Top(level, hash) == Node(level, Depth(|level|), 0, hash)
    decreases |level|
  {
    if |level| > 1 {
      TopIsNode(Up(level, hash), hash);
      LevelSizeAbove(|level|, Depth((|level| + 1) / 2));
      NodeAbove(level, Depth((|level| + 1) / 2), 0, hash);
    }
  }

  /** The root that the level-by-level loop finds is the top of the tree of the hashed leaf texts; without chunks it
      is the hash of nothing. */
  lemma RootIsTopNode(chunks: seq<ManifestChunk>, hash: Hash)
    ensures chunks == [] ==> Root(chunks, hash) == hash("")
    ensures chunks != [] ==>
              var leaves := seq(|chunks|, k requires 0 <= k < |chunks| => hash(LeafText(chunks[k])));
              && LevelSize(|chunks|, Depth(|chunks|)) == 1
              && Root(chunks, hash) == Node(leaves, Depth(|chunks|), 0, hash)
  {
    if chunks != [] {
      TopIsNode(HashAll(LeafTexts(chunks), hash), hash);
      assert HashAll(LeafTexts(chunks), hash) ==
             seq(|chunks|, k requires 0 <= k < |chunks| => hash(LeafText(chunks[k])));
    }
  }

  /** A leaf text is index, hash and size, in decimals, between colons. */
  lemma LeafTextParts(c: ManifestChunk)
    requires ':' !in c.chunkHash
    ensures Parts(LeafText(c), ':') == [Decimal(c.i), c.chunkHash, Decimal(c.size)]
  {
    var rest := c.chunkHash + [':'] + Decimal(c.size);
    assert LeafText(c) == Decimal(c.i) + [':'] + rest;
    FirstPart(Decimal(c.i), ':', rest);
    FirstPart(c.chunkHash, ':', Decimal(c.size));
    OnlyPart(Decimal(c.size), ':');
  }

  // ---- what the tree hashes

  ghost function NodeTexts(level: seq<string>, hash: Hash): set<string>
    decreases |level|
  {
    if |level| <= 1 then {}
    else (set t | t in PairTexts(level)) + NodeTexts(Up(level, hash), hash)
  }

  /** Every text that computing the root hashes. */
  ghost function Hashed(chunks: seq<ManifestChunk>, hash: Hash): set<string> {
    if chunks == [] then {""}
    else (set t | t in LeafTexts(chunks)) + NodeTexts(HashAll(LeafTexts(chunks), hash), hash)
  }

  // ---- leaf texts

  lemma LeafTextIsInjective(c: ManifestChunk, d: ManifestChunk)
    requires LeafText(c) == LeafText(d)
    ensures c == d
  {
    var x, y := c.chunkHash + ":" + Decimal(c.size), d.chunkHash + ":" + Decimal(d.size);
    assert LeafText(c) == Decimal(c.i) + [':'] + x;
    assert LeafText(d) == Decimal(d.i) + [':'] + y;
    SplitAtFirst(':', Decimal(c.i), x, Decimal(d.i), y);
    SplitAtLast(':', c.chunkHash, Decimal(c.size), d.chunkHash, Decimal(d.size));
    DecimalIsInjective(c.i, d.i);
    DecimalIsInjective(c.size, d.size);
  }

  lemma LeafTextIsNoPair(c: ManifestChunk, l: string, r: string)
    requires IsDigest(l) && IsDigest(r)
    ensures LeafText(c) != l + r && LeafText(c) != "" && "" != l + r
  {
    var t := LeafText(c);
    assert t[|Decimal(c.i)|] == ':';
    assert forall k :: 0 <= k < |l + r| ==> IsHex((l + r)[k]);
  }

  // ---- one level

  ghost predicate Digests(level: seq<string>) {
    forall k :: 0 <= k < |level| ==> IsDigest(level[k])
  }

  lemma HashesApart(texts: seq<string>, hash: Hash, inputs: set<string>)
    requires NoDuplicates(texts) && NoCollision(hash, inputs) && (set t | t in texts) <= inputs
    ensures NoDuplicates(HashAll(texts, hash))
  {
    forall j, k | 0 <= j < k < |texts|
      ensures hash(texts[j]) != hash(texts[k])
    {
      assert texts[j] in inputs && texts[k] in inputs;
    }
  }

  lemma HashesDetermineTexts(s: seq<string>, t: seq<string>, hash: Hash, inputs: set<string>)
    requires NoCollision(hash, inputs) && (set x | x in s) <= inputs && (set x | x in t) <= inputs
    requires HashAll(s, hash) == HashAll(t, hash)
    ensures s == t
  {
    assert |s| == |HashAll(s, hash)| == |HashAll(t, hash)| == |t|;
    forall k | 0 <= k < |s|
      ensures s[k] == t[k]
    {
      assert HashAll(s, hash)[k] == hash(s[k]) && HashAll(t, hash)[k] == hash(t[k]);
      assert s[k] in inputs && t[k] in inputs;
    }
  }

  lemma PairDeterminesChildren(l: string, r: string, l': string, r': string)
    requires |l| == |l'| && l + r == l' + r'
    ensures l == l' && r == r'
  {
    assert (l + r)[..|l|] == l && (l' + r')[..|l'|] == l';
    assert (l + r)[|l|..] == r && (l' + r')[|l'|..] == r';
  }

  lemma PairTextsApart(level: seq<string>)
    requires Digests(level) && NoDuplicates(level)
    ensures NoDuplicates(PairTexts(level))
  {
    forall j, k | 0 <= j < k < |PairTexts(level)|
      ensures PairText(level, j) != PairText(level, k)
    {
      assert PairText(level, j)[..64] == level[2 * j] && PairText(level, k)[..64] == level[2 * k];
    }
  }

  /** Without repeated nodes, the pairs determine the level, odd or even. */
  lemma PairTextsDetermineLevel(s: seq<string>, t: seq<string>)
    requires Digests(s) && NoDuplicates(s) && Digests(t) && NoDuplicates(t)
    requires PairTexts(s) == PairTexts(t)
    ensures s == t
  {
    assert |PairTexts(s)| == (|s| + 1) / 2 && |PairTexts(t)| == (|t| + 1) / 2;
    forall k | 0 <= k < |s| && k < |t|
      ensures s[k] == t[k]
    {
      SameChildren(s, t, k / 2);
    }
    if |s| != |t| {
      SameChildren(s, t, |PairTexts(s)| - 1);
    }
  }

  lemma SameChildren(s: seq<string>, t: seq<string>, k: nat)
    requires Digests(s) && Digests(t) && PairTexts(s) == PairTexts(t) && 2 * k < |s| && 2 * k < |t|
    ensures s[2 * k] == t[2 * k]
    ensures (if 2 * k + 1 < |s| then s[2 * k + 1] else s[2 * k]) == (if 2 * k + 1 < |t| then t[2 * k + 1] else t[2 * k])
  {
    assert PairTexts(s)[k] == PairText(s, k) && PairTexts(t)[k] == PairText(t, k);
    PairDeterminesChildren(s[2 * k], if 2 * k + 1 < |s| then s[2 * k + 1] else s[2 * k],
                           t[2 * k], if 2 * k + 1 < |t| then t[2 * k + 1] else t[2 * k]);
  }

  // ---- whole trees

  /** A level fit for the argument: digests, none repeated, and everything above hashed without collision. */
  ghost predicate Sound(level: seq<string>, hash: Hash, inputs: set<string>) {
    && level != [] && Digests(level) && NoDuplicates(level)
    && NodeTexts(level, hash) <= inputs
  }

  lemma UpIsSound(level: seq<string>, hash: Hash, inputs: set<string>)
    requires YieldsDigests(hash) && NoCollision(hash, inputs)
    requires Sound(level, hash, inputs) && |level| > 1
    ensures Sound(Up(level, hash), hash, inputs)
    ensures (set t | t in PairTexts(level)) <= inputs
  {
    PairTextsApart(level);
    HashesApart(PairTexts(level), hash, inputs);
  }

  /** Trees of the same depth with the same top have the same nodes all the way down. */
  lemma {:induction false} SameDepthSameLevel(s: seq<string>, t: seq<string>, hash: Hash, inputs: set<string>)
    requires YieldsDigests(hash) && NoCollision(hash, inputs)
    requires Sound(s, hash, inputs) && Sound(t, hash, inputs)
    requires Depth(|s|) == Depth(|t|) && Top(s, hash) == Top(t, hash)
    ensures s == t
    decreases |s|
  {
    if |s| > 1 {
      UpIsSound(s, hash, inputs);
      UpIsSound(t, hash, inputs);
      SameDepthSameLevel(Up(s, hash), Up(t, hash), hash, inputs);
      SameParentsSameLevel(s, t, hash, inputs);
    }
  }

  lemma SameParentsSameLevel(s: seq<string>, t: seq<string>, hash: Hash, inputs: set<string>)
    requires NoCollision(hash, inputs) && Up(s, hash) == Up(t, hash)
    requires Digests(s) && NoDuplicates(s) && Digests(t) && NoDuplicates(t)
    requires (set x | x in PairTexts(s)) <= inputs && (set x | x in PairTexts(t)) <= inputs
    ensures s == t
  {
    HashesDetermineTexts(PairTexts(s), PairTexts(t), hash, inputs);
    PairTextsDetermineLevel(s, t);
  }

  /** Some node of the level is the hash of two digests that were hashed together. */
  ghost predicate HasInnerNode(level: seq<string>, hash: Hash, inputs: set<string>) {
    exists l, r :: IsDigest(l) && IsDigest(r) && l + r in inputs && level != [] && level[0] == hash(l + r)
  }

  /** Climb a deeper tree to a given depth; what is reached has the same top and an inner node first. */
  lemma {:induction false} Climb(level: seq<string>, d: nat, hash: Hash, inputs: set<string>) returns (up: seq<string>)
    requires YieldsDigests(hash) && NoCollision(hash, inputs)
    requires Sound(level, hash, inputs) && d < Depth(|level|)
    ensures Sound(up, hash, inputs) && Depth(|up|) == d && Top(up, hash) == Top(level, hash)
    ensures HasInnerNode(up, hash, inputs)
    decreases |level|
  {
    UpIsSound(level, hash, inputs);
    up := Up(level, hash);
    if d < Depth(|up|) {
      up := Climb(up, d, hash, inputs);
    } else {
      assert PairTexts(level)[0] == level[0] + level[1];
      assert PairTexts(level)[0] in inputs;
      assert IsDigest(level[0]) && IsDigest(level[1]) && up[0] == hash(level[0] + level[1]);
    }
  }

  lemma LeavesAreSound(chunks: seq<ManifestChunk>, hash: Hash, inputs: set<string>)
    requires YieldsDigests(hash) && NoCollision(hash, inputs) && Hashed(chunks, hash) <= inputs
    requires chunks != [] && DistinctIndices(chunks)
    ensures Sound(HashAll(LeafTexts(chunks), hash), hash, inputs)
  {
    var texts := LeafTexts(chunks);
    forall j, k | 0 <= j < k < |texts|
      ensures texts[j] != texts[k]
    {
      if texts[j] == texts[k] {
        LeafTextIsInjective(chunks[j], chunks[k]);
      }
    }
    HashesApart(texts, hash, inputs);
  }

  lemma LeavesAreNotInner(chunks: seq<ManifestChunk>, hash: Hash, inputs: set<string>)
    requires NoCollision(hash, inputs) && Hashed(chunks, hash) <= inputs && chunks != []
    ensures !HasInnerNode(HashAll(LeafTexts(chunks), hash), hash, inputs)
  {
    var leaf := LeafTexts(chunks)[0];
    assert leaf in inputs;
    forall l, r | IsDigest(l) && IsDigest(r)
      ensures leaf != l + r
    {
      LeafTextIsNoPair(chunks[0], l, r);
    }
  }

  lemma DeeperTreeDiffers(a: seq<ManifestChunk>, b: seq<ManifestChunk>, hash: Hash, inputs: set<string>)
    requires YieldsDigests(hash) && NoCollision(hash, inputs)
    requires Hashed(a, hash) <= inputs && Hashed(b, hash) <= inputs
    requires DistinctIndices(a) && DistinctIndices(b) && a != [] && b != []
    requires Depth(|a|) < Depth(|b|)
    ensures Root(a, hash) != Root(b, hash)
  {
    var s, t := HashAll(LeafTexts(a), hash), HashAll(LeafTexts(b), hash);
    LeavesAreSound(a, hash, inputs);
    LeavesAreSound(b, hash, inputs);
    LeavesAreNotInner(a, hash, inputs);
    var up := Climb(t, Depth(|s|), hash, inputs);
    if Top(s, hash) == Top(t, hash) {
      SameDepthSameLevel(s, up, hash, inputs);
    }
  }

  lemma EmptyTreeDiffers(b: seq<ManifestChunk>, hash: Hash, inputs: set<string>)
    requires YieldsDigests(hash) && NoCollision(hash, inputs)
    requires "" in inputs && Hashed(b, hash) <= inputs && DistinctIndices(b) && b != []
    ensures hash("") != Root(b, hash)
  {
    var t := HashAll(LeafTexts(b), hash);
    LeavesAreSound(b, hash, inputs);
    if |t| == 1 {
      assert LeafTexts(b)[0] in inputs;
      assert LeafText(b[0]) != "";
    } else {
      var up := Climb(t, 0, hash, inputs);
      assert |up| == 1;
      var l, r :| IsDigest(l) && IsDigest(r) && l + r in inputs && up[0] == hash(l + r);
      assert l + r != "";
    }
  }

  /** Two chunk lists with distinct indices and the same root are the same list. */
  lemma RootDeterminesChunks(a: seq<ManifestChunk>, b: seq<ManifestChunk>, hash: Hash)
    requires YieldsDigests(hash) && NoCollision(hash, Hashed(a, hash) + Hashed(b, hash))
    requires DistinctIndices(a) && DistinctIndices(b)
    requires Root(a, hash) == Root(b, hash)
    ensures a == b
  {
    var inputs := Hashed(a, hash) + Hashed(b, hash);
    if a == [] && b != [] {
      EmptyTreeDiffers(b, hash, inputs);
    } else if a != [] && b == [] {
      EmptyTreeDiffers(a, hash, inputs);
    } else if a != [] && b != [] {
      if Depth(|a|) < Depth(|b|) {
        DeeperTreeDiffers(a, b, hash, inputs);
      } else if Depth(|b|) < Depth(|a|) {
        DeeperTreeDiffers(b, a, hash, inputs);
      } else {
        LeavesAreSound(a, hash, inputs);
        LeavesAreSound(b, hash, inputs);
        SameDepthSameLevel(HashAll(LeafTexts(a), hash), HashAll(LeafTexts(b), hash), hash, inputs);
        HashesDetermineTexts(LeafTexts(a), LeafTexts(b), hash, inputs);
        SameLeafTexts(a, b);
      }
    }
  }

  lemma SameLeafTexts(a: seq<ManifestChunk>, b: seq<ManifestChunk>)
    requires LeafTexts(a) == LeafTexts(b)
    ensures a == b
  {
    assert |a| == |LeafTexts(a)| == |LeafTexts(b)| == |b|;
    forall k | 0 <= k < |a|
      ensures a[k] == b[k]
    {
      assert LeafTexts(a)[k] == LeafText(a[k]) && LeafTexts(b)[k] == LeafText(b[k]);
      LeafTextIsInjective(a[k], b[k]);
    }
  }

  /** Distinct indices are needed: repeating the last chunk of an odd list does not change the root. */
  lemma RepeatedChunkKeepsRoot(x: ManifestChunk, y: ManifestChunk, z: ManifestChunk, hash: Hash)
    ensures Root([x, y, z], hash) == Root([x, y, z, z], hash)
  {
    var s, t := HashAll(LeafTexts([x, y, z]), hash), HashAll(LeafTexts([x, y, z, z]), hash);
    assert PairTexts(s) == PairTexts(t);
  }
}
