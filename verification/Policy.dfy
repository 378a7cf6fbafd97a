/**
 IAM policies for bucket grants: rendering a sorted grant list, canonical comparison, recovering a bucket's level from
 a document.
 */
module Policy {
  import opened Wrappers
  import opened Text

  datatype Level = Read | ReadWrite | Admin
  datatype Grant = Grant(bucket: string, level: Level)
  datatype Statement = Statement(sid: string, effect: string, action: seq<string>, resource: seq<string>)
  /** A decoded policy document; None when the text does not parse. */
  type Document = Option<seq<Statement>>

  const FULL: seq<string> := ["s3:*"]
  const READ_ONLY: seq<string> := ["s3:Get*", "s3:List*"]
  const ARN_PREFIX := "arn:aws:s3:::"

  function Arn(bucket: string): string {
    ARN_PREFIX + bucket
  }

  function ArnObjects(bucket: string): string {
    ARN_PREFIX + bucket + "/*"
  }

  predicate FullObjects(level: Level) {
    level.ReadWrite? || level.Admin?
  }

  predicate FullBucket(level: Level) {
    level.Admin?
  }

  function Actions(full: bool): seq<string> {
    if full then FULL else READ_ONLY
  }

  // ---- rendering -------------------------------------------------------------------

  predicate DistinctBuckets(gs: seq<Grant>) {
    forall i, j | 0 <= i < j < |gs| :: gs[i].bucket != gs[j].bucket
  }

  function InsertGrant(g: Grant, gs: seq<Grant>): seq<Grant> {
    if |gs| == 0 || Leq(g.bucket, gs[0].bucket) then [g] + gs else [gs[0]] + InsertGrant(g, gs[1..])
  }

  /** `sort.Slice` by bucket name. */
  function SortGrants(gs: seq<Grant>): seq<Grant> {
    if |gs| == 0 then [] else InsertGrant(gs[0], SortGrants(gs[1..]))
  }

  predicate SortedGrants(gs: seq<Grant>) {
    forall i, j | 0 <= i < j < |gs| :: Leq(gs[i].bucket, gs[j].bucket)
  }

  lemma {:induction false} InsertGrantSorts(g: Grant, gs: seq<Grant>)
    requires SortedGrants(gs)
    ensures SortedGrants(InsertGrant(g, gs)) && multiset(InsertGrant(g, gs)) == multiset{g} + multiset(gs)
  {
    if |gs| > 0 {
      TailMultiset(gs);
      if Leq(g.bucket, gs[0].bucket) {
        forall j | 0 <= j < |gs| ensures Leq(g.bucket, gs[j].bucket) {
          if j > 0 { LeqTransitive(g.bucket, gs[0].bucket, gs[j].bucket); }
        }
      } else {
        var rest := InsertGrant(g, gs[1..]);
        InsertGrantSorts(g, gs[1..]);
        LeqTotal(g.bucket, gs[0].bucket);
        forall j | 0 <= j < |rest| ensures Leq(gs[0].bucket, rest[j].bucket) {
          assert rest[j] in multiset(rest);
          assert rest[j] == g || rest[j] in gs[1..];
        }
      }
    }
  }

  lemma {:induction false} SortGrantsSorts(gs: seq<Grant>)
    ensures SortedGrants(SortGrants(gs)) && multiset(SortGrants(gs)) == multiset(gs)
  {
    if |gs| > 0 {
      SortGrantsSorts(gs[1..]);
      InsertGrantSorts(gs[0], SortGrants(gs[1..]));
      TailMultiset(gs);
    }
  }

  const BASE := Statement("IamListAllMyBuckets", "Allow", ["s3:ListAllMyBuckets"], ["*"])

  function ObjectStatement(g: Grant): Statement {
    Statement(if FullObjects(g.level) then "AllowFullAccessToObjects" else "AllowReadObjectsInBucket",
              "Allow", Actions(FullObjects(g.level)), [ArnObjects(g.bucket)])
  }

  function BucketStatement(g: Grant): Statement {
    Statement(if FullBucket(g.level) then "AllowFullBucketAccess" else "AllowReadBucketMetadata",
              "Allow", Actions(FullBucket(g.level)), [Arn(g.bucket)])
  }

  function Pairs(gs: seq<Grant>): seq<Statement> {
    if |gs| == 0 then [] else [ObjectStatement(gs[0]), BucketStatement(gs[0])] + Pairs(gs[1..])
  }

  function Rendered(gs: seq<Grant>): seq<Statement> {
    [BASE] + Pairs(SortGrants(gs))
  }

  lemma PairsAppend(gs: seq<Grant>, g: Grant)
    ensures Pairs(gs + [g]) == Pairs(gs) + [ObjectStatement(g), BucketStatement(g)]
  {
    if |gs| > 0 {
      assert (gs + [g])[1..] == gs[1..] + [g];
      PairsAppend(gs[1..], g);
    }
  }

  lemma ConsAppend<T>(x: T, p: seq<T>, q: seq<T>)
    ensures [x] + p + q == [x] + (p + q)
  {
  }

  lemma RenderStep(base: Statement, gs: seq<Grant>, i: nat)
    requires i < |gs|
    ensures [base] + Pairs(gs[..i]) + [ObjectStatement(gs[i]), BucketStatement(gs[i])] == [base] + Pairs(gs[..i + 1])
  {
    PairsAppend(gs[..i], gs[i]);
    assert gs[..i + 1] == gs[..i] + [gs[i]];
    ConsAppend(base, Pairs(gs[..i]), [ObjectStatement(gs[i]), BucketStatement(gs[i])]);
  }

  /** The base statement, then an objects and a bucket statement per grant in bucket order. */
  method RenderPolicy(grants: seq<Grant>) returns (doc: seq<Statement>)
    ensures doc == Rendered(grants)
  {
    var sorted := SortGrants(grants);
    doc := [BASE];
    for i := 0 to |sorted|
      invariant doc == [BASE] + Pairs(sorted[..i])
    {
      var g := sorted[i];
      RenderStep(BASE, sorted, i);
      doc := doc + [ObjectStatement(g), BucketStatement(g)];
    }
    assert sorted[..|sorted|] == sorted;
  }

  // ---- canonical comparison -----------------------------------------------------------

  function Canonical(s: Statement): string {
    ToLower(s.effect) + ['|'] + (Join(Sort(s.action), ',') + ['|'] + Join(Sort(s.resource), ','))
  }

  function CanonicalAll(doc: seq<Statement>): seq<string> {
    if |doc| == 0 then [] else [Canonical(doc[0])] + CanonicalAll(doc[1..])
  }

  predicate EqualPolicies(a: Document, b: Document) {
    a.Some? && b.Some? && Sort(CanonicalAll(a.value)) == Sort(CanonicalAll(b.value))
  }

  lemma CanonicalAppend(doc: seq<Statement>, s: Statement)
    ensures CanonicalAll(doc + [s]) == CanonicalAll(doc) + [Canonical(s)]
  {
    if |doc| > 0 {
      assert (doc + [s])[1..] == doc[1..] + [s];
      CanonicalAppend(doc[1..], s);
    }
  }

  method CanonicalStatements(doc: Document) returns (r: Option<seq<string>>)
    ensures r == if doc.None? then None else Some(Sort(CanonicalAll(doc.value)))
  {
    if doc.None? { return None; }
    var out: seq<string> := [];
    for i := 0 to |doc.value|
      invariant out == CanonicalAll(doc.value[..i])
    {
      CanonicalAppend(doc.value[..i], doc.value[i]);
      assert doc.value[..i + 1] == doc.value[..i] + [doc.value[i]];
      out := out + [Canonical(doc.value[i])];
    }
    assert doc.value[..|doc.value|] == doc.value;
    return Some(Sort(out));
  }

  method PoliciesEqual(a: Document, b: Document) returns (equal: bool)
    ensures equal == EqualPolicies(a, b)
  {
    var ca := CanonicalStatements(a);
    if ca.None? { return false; }
    var cb := CanonicalStatements(b);
    if cb.None? { return false; }
    if |ca.value| != |cb.value| { return false; }
    for i := 0 to |ca.value|
      invariant ca.value[..i] == cb.value[..i]
    {
      if ca.value[i] != cb.value[i] { return false; }
      assert ca.value[..i + 1] == ca.value[..i] + [ca.value[i]];
      assert cb.value[..i + 1] == cb.value[..i] + [cb.value[i]];
    }
    assert ca.value == ca.value[..|ca.value|] == cb.value[..|cb.value|] == cb.value;
    return true;
  }

  // ---- recovering a level ---------------------------------------------------------------

  predicate Mentions(s: Statement, arn: string, full: bool) {
    arn in s.resource && (full ==> "s3:*" in s.action)
  }

  predicate Mentioned(doc: seq<Statement>, arn: string, full: bool) {
    exists s :: s in doc && Mentions(s, arn, full)
  }

  function LevelFrom(present: bool, objFull: bool, bktFull: bool): Option<Level> {
    if !present then None
    else if objFull && bktFull then Some(Admin)
    else if objFull then Some(ReadWrite)
    else Some(Read)
  }

  /** The level a document grants on a bucket, None when it mentions the bucket nowhere. */
  function Derived(doc: seq<Statement>, bucket: string): Option<Level> {
    LevelFrom(Mentioned(doc, ArnObjects(bucket), false) || Mentioned(doc, Arn(bucket), false),
              Mentioned(doc, ArnObjects(bucket), true), Mentioned(doc, Arn(bucket), true))
  }

  method DeriveLevelForBucket(doc: Document, bucket: string) returns (level: Option<Level>)
    ensures level == if doc.None? then None else Derived(doc.value, bucket)
  {
    if doc.None? { return None; }
    var objArn, bktArn := ArnObjects(bucket), Arn(bucket);
    var present, objFull, bktFull := false, false, false;
    for i := 0 to |doc.value|
      invariant present <==>
                exists j | 0 <= j < i :: Mentions(doc.value[j], objArn, false) || Mentions(doc.value[j], bktArn, false)
      invariant objFull <==> exists j | 0 <= j < i :: Mentions(doc.value[j], objArn, true)
      invariant bktFull <==> exists j | 0 <= j < i :: Mentions(doc.value[j], bktArn, true)
    {
      var s := doc.value[i];
      var full := "s3:*" in s.action;
      if objArn in s.resource { present, objFull := true, objFull || full; }
      if bktArn in s.resource { present, bktFull := true, bktFull || full; }
    }
    return LevelFrom(present, objFull, bktFull);
  }
}
