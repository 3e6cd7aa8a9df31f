/** The audit hash chain: each row stores its predecessor's hash and the hash of its own material, so that
    the last hash pins down everything before it. */
module AuditChains {
  import opened Prelude
  import opened Hashing
  import opened Decimals

  const GENESIS := "GENESIS"

  /** What a row records; the payload is its serialised form. */
  datatype Record = Record(
    action: string,
    actorId: string,
    repoId: Option<string>,
    targetId: Option<string>,
    payload: Bytes,
    createdAt: int)

  datatype Row = Row(seqNo: nat, prevHash: string, entryHash: string, record: Record)

  function Bar(a: string, b: string): string {
    a + "|" + b
  }

  /** The fields of a record as they are hashed: joined with bars, absent ones empty. */
  function RecordText(r: Record, hash: Hash): string {
    Bar(r.action, Bar(r.actorId, Bar(r.repoId.GetOr(""), Bar(r.targetId.GetOr(""),
      Bar(hash(r.payload), SignedDecimal(r.createdAt))))))
  }

  function Material(prevHash: string, r: Record, hash: Hash): string {
    Bar(prevHash, RecordText(r, hash))
  }

  // ---- what verifying means

  /** The hash a row must link to. */
  function ExpectedPrev(rows: seq<Row>, k: nat): string
    requires k <= |rows|
  {
    if k == 0 then GENESIS else rows[k - 1].entryHash
  }

  predicate LinkGood(rows: seq<Row>, k: nat)
    requires k < |rows|
  {
    rows[k].prevHash == ExpectedPrev(rows, k)
  }

  predicate HashGood(rows: seq<Row>, k: nat, hash: Hash)
    requires k < |rows|
  {
    rows[k].entryHash == hash(Material(rows[k].prevHash, rows[k].record, hash))
  }

  ghost predicate RowGood(rows: seq<Row>, k: nat, hash: Hash)
    requires k < |rows|
  {
    LinkGood(rows, k) && HashGood(rows, k, hash)
  }

  ghost predicate Verifies(rows: seq<Row>, hash: Hash) {
    forall k {:trigger RowGood(rows, k, hash)} :: 0 <= k < |rows| ==> RowGood(rows, k, hash)
  }

  ghost predicate GoodBefore(rows: seq<Row>, k: nat, hash: Hash)
    requires k <= |rows|
  {
    forall j {:trigger RowGood(rows, j, hash)} :: 0 <= j < k ==> RowGood(rows, j, hash)
  }

  ghost predicate Ascending(rows: seq<Row>) {
    forall j, k :: 0 <= j < k < |rows| ==> rows[j].seqNo < rows[k].seqNo
  }

  datatype Reason = PrevHashMismatch | EntryHashMismatch

  datatype VerifyResult =
    | Valid(checked: nat)
    | Broken(checked: nat, atSeq: nat, reason: Reason)

  class AuditChain {
    const hash: Hash
    /** The table in order of its sequence numbers. */
    var rows: seq<Row>
    /** The next number the sequence column hands out. */
    var nextSeq: nat

    ghost predicate Consistent()
      reads this
    {
      Ascending(rows) && forall k :: 0 <= k < |rows| ==> rows[k].seqNo < nextSeq
    }

    constructor (hash: Hash)
      ensures Consistent() && this.hash == hash && rows == []
    {
      this.hash := hash;
      rows, nextSeq := [], 1;
    }

    /** Add a record after the newest row, or after GENESIS. The query for the newest row asks for exactly
        one; with `fallback` an empty table yields GENESIS, as intended, and without it the query fails. */
    method Append(record: Record, fallback: bool) returns (r: Option<string>)
      requires Consistent()
      modifies this
      ensures Consistent()
      ensures r.None? <==> old(rows) == [] && !fallback
      ensures r.None? ==> rows == old(rows)
      ensures r.Some? ==> rows == Extended(old(rows), old(nextSeq), record, hash) && r.value == Last(rows).entryHash
      ensures r.Some? ==>
                var prevHash := if old(rows) == [] then "GENESIS" else Last(old(rows)).entryHash;
                rows == old(rows) + [Row(old(nextSeq), prevHash, hash(Material(prevHash, record, hash)), record)]
    {
      if rows == [] && !fallback {
        return None;
      }
      var prevHash := if rows == [] then GENESIS else Last(rows).entryHash;
      var entryHash := hash(Material(prevHash, record, hash));
      rows := rows + [Row(nextSeq, prevHash, entryHash, record)];
      nextSeq := nextSeq + 1;
      return Some(entryHash);
    }

    /** Check every link and every hash from the first row; stop at the first that is wrong. */
    method VerifyChain() returns (r: VerifyResult)
      ensures r.Valid? <==> Verifies(rows, hash)
      ensures r.Valid? ==> r.checked == |rows|
      ensures r.Broken? ==> FirstWrong(rows, hash, r)
    {
      var expectedPrev := GENESIS;
      for k := 0 to |rows|
        invariant expectedPrev == ExpectedPrev(rows, k)
        invariant GoodBefore(rows, k, hash)
      {
        var row := rows[k];
        if row.prevHash != expectedPrev {
          r := Broken(Max(row.seqNo - 1, 0), row.seqNo, PrevHashMismatch);
          FirstWrongFound(rows, hash, r, k);
          return;
        }
        if row.entryHash != hash(Material(row.prevHash, row.record, hash)) {
          r := Broken(Max(row.seqNo - 1, 0), row.seqNo, EntryHashMismatch);
          FirstWrongFound(rows, hash, r, k);
          return;
        }
        expectedPrev := row.entryHash;
      }
      return Valid(|rows|);
    }
  }

  /** A failed verification names the first wrong row and what is wrong with it; the link is checked first. */
  ghost predicate FirstWrong(rows: seq<Row>, hash: Hash, r: VerifyResult)
    requires r.Broken?
  {
    exists k :: 0 <= k < |rows| && WrongAt(rows, hash, r, k)
  }

  ghost predicate WrongAt(rows: seq<Row>, hash: Hash, r: VerifyResult, k: nat)
    requires r.Broken? && k < |rows|
  {
    && r.atSeq == rows[k].seqNo && r.checked == Max(rows[k].seqNo - 1, 0)
    && GoodBefore(rows, k, hash)
    && (r.reason == PrevHashMismatch ==> !LinkGood(rows, k))
    && (r.reason == EntryHashMismatch ==> LinkGood(rows, k) && !HashGood(rows, k, hash))
  }

  lemma FirstWrongFound(rows: seq<Row>, hash: Hash, r: VerifyResult, k: nat)
    requires r.Broken? && k < |rows| && WrongAt(rows, hash, r, k)
    ensures FirstWrong(rows, hash, r) && !Verifies(rows, hash)
  {
    assert !RowGood(rows, k, hash);
  }

  lemma {:induction false} NumbersStepUp(rows: seq<Row>, j: nat, k: nat)
    requires Ascending(rows) && j <= k < |rows|
    ensures rows[k].seqNo >= rows[j].seqNo + (k - j)
    decreases k
  {
    if j < k {
      NumbersStepUp(rows, j, k - 1);
      assert rows[k - 1].seqNo < rows[k].seqNo;
    }
  }

  /** What a failed verification reports as checked is one less than the wrong row's sequence number. It is never
      below the number of rows before that row, and is this number exactly when no number was skipped so far. */
  lemma CheckedCountsRowsIff(rows: seq<Row>, hash: Hash, r: VerifyResult, k: nat)
    requires Ascending(rows) && k < |rows| && rows[0].seqNo > 0
    requires r.Broken? && WrongAt(rows, hash, r, k)
    ensures r.checked >= k
    ensures r.checked == k <==> rows[k].seqNo == k + 1
    ensures r.checked == k <==> forall j :: 0 <= j <= k ==> rows[j].seqNo == j + 1
  {
    NumbersStepUp(rows, 0, k);
    forall j | 0 <= j <= k && r.checked == k
      ensures rows[j].seqNo == j + 1
    {
      NumbersStepUp(rows, 0, j);
      NumbersStepUp(rows, j, k);
    }
  }

  function Extended(rows: seq<Row>, seqNo: nat, record: Record, hash: Hash): seq<Row> {
    var prevHash := ExpectedPrev(rows, |rows|);
    rows + [Row(seqNo, prevHash, hash(Material(prevHash, record, hash)), record)]
  }

  // ---- every chain that append builds verifies

  lemma AppendKeepsVerifying(rows: seq<Row>, seqNo: nat, record: Record, hash: Hash)
    requires Verifies(rows, hash)
    ensures Verifies(Extended(rows, seqNo, record, hash), hash)
  {
    var rows' := Extended(rows, seqNo, record, hash);
    forall k | 0 <= k < |rows'|
      ensures RowGood(rows', k, hash)
    {
      if k < |rows| {
        assert RowGood(rows, k, hash);
      }
    }
  }

  /** The table after appending some records in turn, the sequence skipping where transactions were lost. */
  function Appended(records: seq<Record>, seqNos: seq<nat>, hash: Hash): seq<Row>
    requires |seqNos| == |records|
  {
    if records == [] then []
    else Extended(Appended(records[..|records| - 1], seqNos[..|records| - 1], hash), Last(seqNos), Last(records), hash)
  }

  lemma {:induction false} AppendedChainsVerify(records: seq<Record>, seqNos: seq<nat>, hash: Hash)
    requires |seqNos| == |records|
    ensures Verifies(Appended(records, seqNos, hash), hash)
    ensures |Appended(records, seqNos, hash)| == |records|
    ensures forall k :: 0 <= k < |records| ==> Appended(records, seqNos, hash)[k].record == records[k]
    ensures records != [] ==> Appended(records, seqNos, hash)[0].prevHash == "GENESIS"
  {
    if records != [] {
      var n := |records| - 1;
      AppendedChainsVerify(records[..n], seqNos[..n], hash);
      AppendKeepsVerifying(Appended(records[..n], seqNos[..n], hash), Last(seqNos), Last(records), hash);
    }
  }

  /** Without the fallback a table that starts empty stays empty, whatever is appended. */
  method AppendAll(chain: AuditChain, records: seq<Record>, fallback: bool)
    requires chain.Consistent()
    modifies chain
    ensures chain.Consistent()
    ensures old(chain.rows) == [] && !fallback ==> chain.rows == []
    ensures Verifies(old(chain.rows), chain.hash) ==> Verifies(chain.rows, chain.hash)
    ensures (fallback || old(chain.rows) != []) ==>
              && |chain.rows| == |old(chain.rows)| + |records|
              && chain.rows[..|old(chain.rows)|] == old(chain.rows)
              && forall k :: 0 <= k < |records| ==> chain.rows[|old(chain.rows)| + k].record == records[k]
  {
    ghost var start := chain.rows;
    for k := 0 to |records|
      invariant chain.Consistent()
      invariant start == [] && !fallback ==> chain.rows == []
      invariant Verifies(start, chain.hash) ==> Verifies(chain.rows, chain.hash)
      invariant (fallback || start != []) ==>
                  && |chain.rows| == |start| + k && chain.rows[..|start|] == start
                  && forall j :: 0 <= j < k ==> chain.rows[|start| + j].record == records[j]
    {
      ghost var before, seqNo := chain.rows, chain.nextSeq;
      var r := chain.Append(records[k], fallback);
      if r.Some? && Verifies(before, chain.hash) {
        AppendKeepsVerifying(before, seqNo, records[k], chain.hash);
      }
    }
  }

  // ---- the last hash determines the chain

  function MaterialAt(rows: seq<Row>, k: nat, hash: Hash): string
    requires k < |rows|
  {
    Material(rows[k].prevHash, rows[k].record, hash)
  }

  /** The texts the chain hashes, one per row. */
  function Materials(rows: seq<Row>, hash: Hash): seq<string> {
    if rows == [] then [] else Materials(rows[..|rows| - 1], hash) + [MaterialAt(rows, |rows| - 1, hash)]
  }

  lemma {:induction false} MaterialsInOrder(rows: seq<Row>, k: nat, hash: Hash)
    requires k < |rows|
    ensures |Materials(rows, hash)| == |rows| && Materials(rows, hash)[k] == MaterialAt(rows, k, hash)
  {
    var front := rows[..|rows| - 1];
    if k < |front| {
      MaterialsInOrder(front, k, hash);
    } else if front != [] {
      MaterialsInOrder(front, 0, hash);
    }
  }

  ghost predicate HashesWithin(rows: seq<Row>, hash: Hash, inputs: set<Bytes>) {
    forall text :: text in Materials(rows, hash) ==> text in inputs
  }

  /** The hash before the bar can be read off a material: neither a digest nor GENESIS has a bar. */
  lemma MaterialShowsPrev(p: string, r: Record, p': string, r': Record, hash: Hash)
    requires '|' !in p && '|' !in p' && Material(p, r, hash) == Material(p', r', hash)
    ensures p == p' && RecordText(r, hash) == RecordText(r', hash)
  {
    SplitAtFirst('|', p, RecordText(r, hash), p', RecordText(r', hash));
  }

  lemma DigestsHaveNoBar(s: string)
    requires IsDigest(s) || s == GENESIS
    ensures '|' !in s
  {
  }

  lemma LastMaterialHashed(rows: seq<Row>, hash: Hash)
    requires Verifies(rows, hash) && rows != []
    ensures var n := |rows| - 1;
            && Last(rows).entryHash == hash(MaterialAt(rows, n, hash))
            && Last(rows).prevHash == ExpectedPrev(rows, n)
            && Verifies(rows[..n], hash)
  {
    var n := |rows| - 1;
    assert RowGood(rows, n, hash);
    forall k | 0 <= k < n
      ensures RowGood(rows[..n], k, hash)
    {
      assert RowGood(rows, k, hash);
    }
  }

  /** Two chains that both verify and end in the same entry hash have the same length and hash the same
      material at every position. */
  lemma {:induction false} LastHashDeterminesChain(a: seq<Row>, b: seq<Row>, hash: Hash, inputs: set<Bytes>)
    requires YieldsDigests(hash) && NoCollision(hash, inputs)
    requires HashesWithin(a, hash, inputs) && HashesWithin(b, hash, inputs)
    requires Verifies(a, hash) && Verifies(b, hash)
    requires ExpectedPrev(a, |a|) == ExpectedPrev(b, |b|)
    ensures |a| == |b| && Materials(a, hash) == Materials(b, hash)
    decreases |a|
  {
    if a == [] {
      GenesisIsNoEntry(b, hash);
    } else if b == [] {
      GenesisIsNoEntry(a, hash);
    } else {
      ChainsStepBack(a, b, hash, inputs);
      LastHashDeterminesChain(a[..|a| - 1], b[..|b| - 1], hash, inputs);
    }
  }

  /** Chains that end alike end in the same material, and without it they still end alike. */
  lemma ChainsStepBack(a: seq<Row>, b: seq<Row>, hash: Hash, inputs: set<Bytes>)
    requires YieldsDigests(hash) && NoCollision(hash, inputs) && a != [] && b != []
    requires HashesWithin(a, hash, inputs) && HashesWithin(b, hash, inputs)
    requires Verifies(a, hash) && Verifies(b, hash) && Last(a).entryHash == Last(b).entryHash
    ensures MaterialAt(a, |a| - 1, hash) == MaterialAt(b, |b| - 1, hash)
    ensures var a', b' := a[..|a| - 1], b[..|b| - 1];
            && HashesWithin(a', hash, inputs) && HashesWithin(b', hash, inputs)
            && Verifies(a', hash) && Verifies(b', hash) && ExpectedPrev(a', |a'|) == ExpectedPrev(b', |b'|)
  {
    SameLastMaterial(a, b, hash, inputs);
    SamePrev(a, b, hash);
    PrefixVerifies(a, hash, inputs);
    PrefixVerifies(b, hash, inputs);
  }

  lemma SameLastMaterial(a: seq<Row>, b: seq<Row>, hash: Hash, inputs: set<Bytes>)
    requires NoCollision(hash, inputs) && a != [] && b != []
    requires HashesWithin(a, hash, inputs) && HashesWithin(b, hash, inputs)
    requires Verifies(a, hash) && Verifies(b, hash) && Last(a).entryHash == Last(b).entryHash
    ensures MaterialAt(a, |a| - 1, hash) == MaterialAt(b, |b| - 1, hash)
  {
    LastMaterialHashed(a, hash);
    LastMaterialHashed(b, hash);
    assert Last(Materials(a, hash)) in inputs && Last(Materials(b, hash)) in inputs;
  }

  lemma SamePrev(a: seq<Row>, b: seq<Row>, hash: Hash)
    requires YieldsDigests(hash) && Verifies(a, hash) && Verifies(b, hash) && a != [] && b != []
    requires MaterialAt(a, |a| - 1, hash) == MaterialAt(b, |b| - 1, hash)
    ensures ExpectedPrev(a, |a| - 1) == ExpectedPrev(b, |b| - 1)
  {
    LastMaterialHashed(a, hash);
    LastMaterialHashed(b, hash);
    PrevHasNoBar(a, hash);
    PrevHasNoBar(b, hash);
    MaterialShowsPrev(Last(a).prevHash, Last(a).record, Last(b).prevHash, Last(b).record, hash);
  }

  lemma PrefixVerifies(rows: seq<Row>, hash: Hash, inputs: set<Bytes>)
    requires Verifies(rows, hash) && HashesWithin(rows, hash, inputs) && rows != []
    ensures var n := |rows| - 1;
            && Verifies(rows[..n], hash) && HashesWithin(rows[..n], hash, inputs)
            && ExpectedPrev(rows[..n], n) == ExpectedPrev(rows, n)
  {
    LastMaterialHashed(rows, hash);
    var front := rows[..|rows| - 1];
    forall text | text in Materials(front, hash)
      ensures text in inputs
    {
      assert text in Materials(rows, hash);
    }
  }

  lemma GenesisIsNoEntry(rows: seq<Row>, hash: Hash)
    requires YieldsDigests(hash) && Verifies(rows, hash)
    ensures rows != [] ==> Last(rows).entryHash != GENESIS
  {
    if rows != [] {
      LastMaterialHashed(rows, hash);
      assert IsDigest(hash(MaterialAt(rows, |rows| - 1, hash)));
    }
  }

  lemma PrevHasNoBar(rows: seq<Row>, hash: Hash)
    requires YieldsDigests(hash) && Verifies(rows, hash) && rows != []
    ensures '|' !in Last(rows).prevHash
  {
    var n := |rows| - 1;
    LastMaterialHashed(rows, hash);
    if n > 0 {
      LastMaterialHashed(rows[..n], hash);
      assert IsDigest(hash(MaterialAt(rows[..n], n - 1, hash)));
    }
    DigestsHaveNoBar(Last(rows).prevHash);
  }

  // ---- from material to fields

  predicate BarFree(r: Record) {
    '|' !in r.action && '|' !in r.actorId && '|' !in r.repoId.GetOr("") && '|' !in r.targetId.GetOr("")
  }

  /** The same fields, an absent id counting as empty. */
  predicate SameFields(r: Record, r': Record) {
    && r.action == r'.action && r.actorId == r'.actorId && r.payload == r'.payload && r.createdAt == r'.createdAt
    && r.repoId.GetOr("") == r'.repoId.GetOr("") && r.targetId.GetOr("") == r'.targetId.GetOr("")
  }

  function Bars(s: string): nat {
    if s == "" then 0 else (if s[0] == '|' then 1 else 0) + Bars(s[1..])
  }

  lemma {:induction false} BarsAdd(a: string, b: string)
    ensures Bars(a + b) == Bars(a) + Bars(b)
  {
    if a == "" {
      assert a + b == b;
    } else {
      assert (a + b)[1..] == a[1..] + b;
      BarsAdd(a[1..], b);
    }
  }

  lemma {:induction false} NoBarsIff(s: string)
    ensures Bars(s) == 0 <==> '|' !in s
  {
    if s != "" {
      NoBarsIff(s[1..]);
      assert s == [s[0]] + s[1..];
    }
  }

  lemma BarsOfBar(a: string, b: string)
    ensures Bars(Bar(a, b)) == Bars(a) + 1 + Bars(b)
  {
    BarsAdd(a + "|", b);
    BarsAdd(a, "|");
    assert Bars("|") == 1;
  }

  lemma DecimalHasNoBar(n: int)
    ensures '|' !in SignedDecimal(n)
  {
    var digits := Decimal(if n < 0 then -n else n);
    assert forall k :: 0 <= k < |digits| ==> IsDigit(digits[k]);
  }

  /** A record's text has five bars of its own and those of its free fields. */
  lemma RecordBars(r: Record, hash: Hash)
    requires YieldsDigests(hash)
    ensures Bars(RecordText(r, hash)) ==
            Bars(r.action) + Bars(r.actorId) + Bars(r.repoId.GetOr("")) + Bars(r.targetId.GetOr("")) + 5
  {
    var t5 := SignedDecimal(r.createdAt);
    var t4 := Bar(hash(r.payload), t5);
    var t3 := Bar(r.targetId.GetOr(""), t4);
    var t2 := Bar(r.repoId.GetOr(""), t3);
    BarsOfBar(r.action, Bar(r.actorId, t2));
    BarsOfBar(r.actorId, t2);
    BarsOfBar(r.repoId.GetOr(""), t3);
    BarsOfBar(r.targetId.GetOr(""), t4);
    BarsOfBar(hash(r.payload), t5);
    DecimalHasNoBar(r.createdAt);
    NoBarsIff(t5);
    assert IsDigest(hash(r.payload));
    DigestsHaveNoBar(hash(r.payload));
    NoBarsIff(hash(r.payload));
  }

  lemma BarFreeIsZero(r: Record)
    ensures BarFree(r) <==>
            Bars(r.action) + Bars(r.actorId) + Bars(r.repoId.GetOr("")) + Bars(r.targetId.GetOr("")) == 0
  {
    NoBarsIff(r.action);
    NoBarsIff(r.actorId);
    NoBarsIff(r.repoId.GetOr(""));
    NoBarsIff(r.targetId.GetOr(""));
  }

  /** The hashed material is these seven texts in this order, between bars. */
  lemma MaterialParts(prevHash: string, r: Record, hash: Hash)
    requires YieldsDigests(hash) && BarFree(r) && '|' !in prevHash
    ensures Parts(Material(prevHash, r, hash), '|') ==
            [prevHash, r.action, r.actorId, r.repoId.GetOr(""), r.targetId.GetOr(""), hash(r.payload),
             SignedDecimal(r.createdAt)]
  {
    var t5 := SignedDecimal(r.createdAt);
    var t4 := Bar(hash(r.payload), t5);
    var t3 := Bar(r.targetId.GetOr(""), t4);
    var t2 := Bar(r.repoId.GetOr(""), t3);
    assert IsDigest(hash(r.payload));
    DigestsHaveNoBar(hash(r.payload));
    DecimalHasNoBar(r.createdAt);
    FirstPart(prevHash, '|', RecordText(r, hash));
    FirstPart(r.action, '|', Bar(r.actorId, t2));
    FirstPart(r.actorId, '|', t2);
    FirstPart(r.repoId.GetOr(""), '|', t3);
    FirstPart(r.targetId.GetOr(""), '|', t4);
    FirstPart(hash(r.payload), '|', t5);
    OnlyPart(t5, '|');
  }

  /** A record without bars in its free text shares its text with no record that has other fields. */
  lemma BarFreeTextDeterminesFields(r: Record, r': Record, hash: Hash)
    requires YieldsDigests(hash) && NoCollision(hash, {r.payload, r'.payload})
    requires BarFree(r) && RecordText(r, hash) == RecordText(r', hash)
    ensures SameFields(r, r')
  {
    RecordBars(r, hash);
    RecordBars(r', hash);
    BarFreeIsZero(r);
    BarFreeIsZero(r');
    FieldByField(r, r', hash);
  }

  lemma FieldByField(r: Record, r': Record, hash: Hash)
    requires YieldsDigests(hash) && NoCollision(hash, {r.payload, r'.payload})
    requires BarFree(r) && BarFree(r') && RecordText(r, hash) == RecordText(r', hash)
    ensures SameFields(r, r')
  {
    var t5, t5' := SignedDecimal(r.createdAt), SignedDecimal(r'.createdAt);
    var t4, t4' := Bar(hash(r.payload), t5), Bar(hash(r'.payload), t5');
    var t3, t3' := Bar(r.targetId.GetOr(""), t4), Bar(r'.targetId.GetOr(""), t4');
    var t2, t2' := Bar(r.repoId.GetOr(""), t3), Bar(r'.repoId.GetOr(""), t3');
    SplitAtFirst('|', r.action, Bar(r.actorId, t2), r'.action, Bar(r'.actorId, t2'));
    SplitAtFirst('|', r.actorId, t2, r'.actorId, t2');
    SplitAtFirst('|', r.repoId.GetOr(""), t3, r'.repoId.GetOr(""), t3');
    SplitAtFirst('|', r.targetId.GetOr(""), t4, r'.targetId.GetOr(""), t4');
    assert IsDigest(hash(r.payload)) && IsDigest(hash(r'.payload));
    SplitAtFirst('|', hash(r.payload), t5, hash(r'.payload), t5');
    SignedDecimalIsInjective(r.createdAt, r'.createdAt);
  }

  /** A barred text falls apart at a bar, and the two parts can be shared out differently. */
  lemma {:induction false} CutAtBar(s: string) returns (x: string, y: string)
    requires '|' in s
    ensures s == Bar(x, y) && x != s && y != s
  {
    if s[0] == '|' {
      x, y := "", s[1..];
      assert s == Bar(x, y);
    } else {
      var x', y' := CutAtBar(s[1..]);
      x, y := [s[0]] + x', y';
      assert s == [s[0]] + s[1..];
    }
  }

  /** What follows a bar may move to the next field. */
  lemma MoveRight(a: string, x: string, y: string, b: string, t: string)
    requires a == Bar(x, y)
    ensures Bar(a, Bar(b, t)) == Bar(x, Bar(Bar(y, b), t))
  {
    assert Bar(a, Bar(b, t)) == x + "|" + y + "|" + b + "|" + t;
    assert Bar(x, Bar(Bar(y, b), t)) == x + "|" + y + "|" + b + "|" + t;
  }

  /** What precedes a bar may move to the field before. */
  lemma MoveLeft(a: string, b: string, x: string, y: string, t: string)
    requires b == Bar(x, y)
    ensures Bar(a, Bar(b, t)) == Bar(Bar(a, x), Bar(y, t))
  {
    assert Bar(a, Bar(b, t)) == a + "|" + x + "|" + y + "|" + t;
    assert Bar(Bar(a, x), Bar(y, t)) == a + "|" + x + "|" + y + "|" + t;
  }

  function TailText(r: Record, hash: Hash): string {
    Bar(hash(r.payload), SignedDecimal(r.createdAt))
  }

  /** The other record into which a bar lets the text be read. */
  lemma BarredRecordHasDouble(r: Record, hash: Hash) returns (r': Record)
    requires !BarFree(r)
    ensures !SameFields(r, r') && r'.payload == r.payload && RecordText(r', hash) == RecordText(r, hash)
  {
    var repo, target, tail := r.repoId.GetOr(""), r.targetId.GetOr(""), TailText(r, hash);
    if '|' in r.action {
      var x, y := CutAtBar(r.action);
      r' := r.(action := x, actorId := Bar(y, r.actorId));
      MoveRight(r.action, x, y, r.actorId, Bar(repo, Bar(target, tail)));
    } else if '|' in r.actorId {
      var x, y := CutAtBar(r.actorId);
      r' := r.(actorId := x, repoId := Some(Bar(y, repo)));
      MoveRight(r.actorId, x, y, repo, Bar(target, tail));
    } else if '|' in repo {
      var x, y := CutAtBar(repo);
      r' := r.(repoId := Some(x), targetId := Some(Bar(y, target)));
      MoveRight(repo, x, y, target, tail);
    } else {
      var x, y := CutAtBar(target);
      r' := r.(repoId := Some(Bar(repo, x)), targetId := Some(y));
      MoveLeft(repo, target, x, y, tail);
    }
  }

  /** The text of a record determines its fields, an absent id counting as empty, exactly when its free
      fields hold no bar. Only the payload hashes of the two records compared must not collide. */
  lemma TextDeterminesFieldsIff(r: Record, hash: Hash)
    requires YieldsDigests(hash)
    ensures (forall r': Record ::
               NoCollision(hash, {r.payload, r'.payload}) && RecordText(r', hash) == RecordText(r, hash) ==>
                 SameFields(r, r'))
            <==> BarFree(r)
  {
    if BarFree(r) {
      forall r': Record | NoCollision(hash, {r.payload, r'.payload}) && RecordText(r', hash) == RecordText(r, hash)
        ensures SameFields(r, r')
      {
        BarFreeTextDeterminesFields(r, r', hash);
      }
    } else {
      var r' := BarredRecordHasDouble(r, hash);
    }
  }

  ghost predicate PayloadsApart(a: seq<Row>, b: seq<Row>, hash: Hash) {
    forall k :: 0 <= k < |a| && k < |b| ==> NoCollision(hash, {a[k].record.payload, b[k].record.payload})
  }

  lemma PrevAtHasNoBar(rows: seq<Row>, k: nat, hash: Hash)
    requires YieldsDigests(hash) && Verifies(rows, hash) && k < |rows|
    ensures '|' !in rows[k].prevHash
  {
    assert RowGood(rows, k, hash);
    if k > 0 {
      assert RowGood(rows, k - 1, hash);
      assert IsDigest(hash(Material(rows[k - 1].prevHash, rows[k - 1].record, hash)));
    }
    DigestsHaveNoBar(rows[k].prevHash);
  }

  /** So the last hash determines every record of a verifying chain whose free fields hold no bars: any other
      verifying chain with this last hash holds the same fields at every position. */
  lemma LastHashDeterminesRecords(a: seq<Row>, b: seq<Row>, hash: Hash, inputs: set<Bytes>)
    requires YieldsDigests(hash) && NoCollision(hash, inputs) && PayloadsApart(a, b, hash)
    requires HashesWithin(a, hash, inputs) && HashesWithin(b, hash, inputs)
    requires Verifies(a, hash) && Verifies(b, hash) && ExpectedPrev(a, |a|) == ExpectedPrev(b, |b|)
    requires forall k :: 0 <= k < |a| ==> BarFree(a[k].record)
    ensures |a| == |b| && forall k :: 0 <= k < |a| ==> SameFields(a[k].record, b[k].record)
  {
    LastHashDeterminesChain(a, b, hash, inputs);
    forall k | 0 <= k < |a|
      ensures SameFields(a[k].record, b[k].record)
    {
      MaterialsInOrder(a, k, hash);
      MaterialsInOrder(b, k, hash);
      PrevAtHasNoBar(a, k, hash);
      PrevAtHasNoBar(b, k, hash);
      MaterialShowsPrev(a[k].prevHash, a[k].record, b[k].prevHash, b[k].record, hash);
      BarFreeTextDeterminesFields(a[k].record, b[k].record, hash);
    }
  }
}
