/** When two grant lists render to the same policy, and when a policy gives a bucket's level back. */
module GrantTheorems {
  import opened Wrappers
  import opened Text
  import opened Policy
  import opened PolicyTheorems

  /** The grants as bucket to level. */
  function GrantMap(gs: seq<Grant>): map<string, Level> {
    if |gs| == 0 then map[] else GrantMap(gs[1..])[gs[0].bucket := gs[0].level]
  }

  predicate SameGrants(g: seq<Grant>, h: seq<Grant>) {
    GrantMap(g) == GrantMap(h)
  }

  lemma {:induction false} MapMembers(gs: seq<Grant>)
    requires DistinctBuckets(gs)
    ensures forall b, l :: b in GrantMap(gs) && GrantMap(gs)[b] == l <==> Grant(b, l) in gs
    ensures |gs| > 0 ==> gs[0].bucket !in GrantMap(gs[1..])
  {
    if |gs| > 0 {
      MapMembers(gs[1..]);
      assert forall x :: x in gs <==> x == gs[0] || x in gs[1..];
      forall b | b in GrantMap(gs[1..]) ensures b != gs[0].bucket {
        assert Grant(b, GrantMap(gs[1..])[b]) in gs[1..];
      }
    }
  }

  lemma PermutedDistinct(g: seq<Grant>, h: seq<Grant>)
    requires DistinctBuckets(g) && multiset(g) == multiset(h)
    ensures DistinctBuckets(h)
  {
    forall i, j | 0 <= i < j < |h| ensures h[i].bucket != h[j].bucket {
      if h[i].bucket == h[j].bucket {
        assert h[i] in multiset(g) && h[j] in multiset(g);
        var a :| 0 <= a < |g| && g[a] == h[i];
        var b :| 0 <= b < |g| && g[b] == h[j];
        assert a == b;
        DistinctFromBuckets(g);
        DistinctIsMultiset(g, h);
      }
    }
  }

  lemma DistinctFromBuckets(g: seq<Grant>)
    requires DistinctBuckets(g)
    ensures Distinct(g)
  {
  }

  lemma SortedMap(g: seq<Grant>)
    requires DistinctBuckets(g)
    ensures DistinctBuckets(SortGrants(g)) && GrantMap(SortGrants(g)) == GrantMap(g)
  {
    SortGrantsSorts(g);
    PermutedDistinct(g, SortGrants(g));
    SamePermuted(g, SortGrants(g));
  }

  lemma SamePermuted(g: seq<Grant>, h: seq<Grant>)
    requires DistinctBuckets(g) && DistinctBuckets(h) && multiset(g) == multiset(h)
    ensures GrantMap(g) == GrantMap(h)
  {
    forall x ensures x in g <==> x in h {
      assert x in g <==> x in multiset(g);
      assert x in h <==> x in multiset(h);
    }
    MapIncluded(g, h);
    MapIncluded(h, g);
  }

  lemma MapIncluded(g: seq<Grant>, h: seq<Grant>)
    requires DistinctBuckets(g) && DistinctBuckets(h) && forall x :: x in g ==> x in h
    ensures forall b | b in GrantMap(g) :: b in GrantMap(h) && GrantMap(h)[b] == GrantMap(g)[b]
  {
    MapMembers(g);
    MapMembers(h);
    forall b | b in GrantMap(g) ensures b in GrantMap(h) && GrantMap(h)[b] == GrantMap(g)[b] {
      assert Grant(b, GrantMap(g)[b]) in h;
    }
  }

  // ---- counting rendered statements ---------------------------------------------------

  /** The meaning of a rendered statement on the named object. */
  function Tuple(full: bool, name: string): Meaning {
    Meaning("allow", multiset(Actions(full)), multiset{ARN_PREFIX + name})
  }

  function Parent(name: string): string {
    if HasSuffix(name, "/*") then name[..|name| - 2] else name
  }

  /** How many object statements of `m` name this object with this access. */
  function ObjectCount(m: map<string, Level>, name: string, full: bool): nat {
    if HasSuffix(name, "/*") && Parent(name) in m && FullObjects(m[Parent(name)]) == full then 1 else 0
  }

  function BucketCount(m: map<string, Level>, name: string, full: bool): nat {
    if name in m && FullBucket(m[name]) == full then 1 else 0
  }

  function Count(m: map<string, Level>, name: string, full: bool): nat {
    ObjectCount(m, name, full) + BucketCount(m, name, full)
  }

  lemma ParentOf(b: string)
    ensures HasSuffix(b + "/*", "/*") && Parent(b + "/*") == b
    ensures forall name | HasSuffix(name, "/*") :: name == Parent(name) + "/*"
  {
    assert (b + "/*")[..|b|] == b;
    forall name | HasSuffix(name, "/*") ensures name == Parent(name) + "/*" {
      assert name == name[..|name| - 2] + name[|name| - 2..];
    }
  }

  lemma AllowLower()
    ensures ToLower("Allow") == "allow"
  {
  }

  lemma TupleInjective(f1: bool, n1: string, f2: bool, n2: string)
    ensures Tuple(f1, n1) == Tuple(f2, n2) <==> f1 == f2 && n1 == n2
  {
    assert "s3:*" in multiset(Actions(true)) && "s3:*" !in multiset(Actions(false));
    if Tuple(f1, n1) == Tuple(f2, n2) {
      var a1, a2 := ARN_PREFIX + n1, ARN_PREFIX + n2;
      assert a1 in multiset{a2};
      assert a1[|ARN_PREFIX|..] == n1 && a2[|ARN_PREFIX|..] == n2;
    }
  }

  lemma StatementMeanings(g: Grant)
    ensures MeaningOf(ObjectStatement(g)) == Tuple(FullObjects(g.level), g.bucket + "/*")
    ensures MeaningOf(BucketStatement(g)) == Tuple(FullBucket(g.level), g.bucket)
  {
    AllowLower();
    assert ArnObjects(g.bucket) == ARN_PREFIX + (g.bucket + "/*");
    assert multiset([ArnObjects(g.bucket)]) == multiset{ARN_PREFIX + (g.bucket + "/*")};
    assert multiset([Arn(g.bucket)]) == multiset{ARN_PREFIX + g.bucket};
  }

  lemma TwoMeanings(o: Statement, b: Statement, rest: seq<Statement>)
    ensures MeaningAll([o, b] + rest) == [MeaningOf(o), MeaningOf(b)] + MeaningAll(rest)
  {
    var doc := [o, b] + rest;
    assert doc[1..] == [b] + rest && doc[1..][1..] == rest;
    assert MeaningAll(doc) == [MeaningOf(o)] + ([MeaningOf(b)] + MeaningAll(rest));
  }

  /** The meanings a grant list renders to, in terms of how one statement is written. */
  function Tuples(gs: seq<Grant>, f: (bool, string) -> Meaning): seq<Meaning> {
    if |gs| == 0 then []
    else
      [f(FullObjects(gs[0].level), gs[0].bucket + "/*"), f(FullBucket(gs[0].level), gs[0].bucket)]
      + Tuples(gs[1..], f)
  }

  ghost predicate Written(f: (bool, string) -> Meaning) {
    forall g: Grant :: MeaningOf(ObjectStatement(g)) == f(FullObjects(g.level), g.bucket + "/*")
                    && MeaningOf(BucketStatement(g)) == f(FullBucket(g.level), g.bucket)
  }

  lemma {:induction false} PairMeanings(gs: seq<Grant>, f: (bool, string) -> Meaning)
    requires Written(f)
    ensures MeaningAll(Pairs(gs)) == Tuples(gs, f)
  {
    if |gs| > 0 {
      PairMeanings(gs[1..], f);
      TwoMeanings(ObjectStatement(gs[0]), BucketStatement(gs[0]), Pairs(gs[1..]));
    }
  }

  lemma CountInsert(m: map<string, Level>, b: string, l: Level, name: string, full: bool)
    requires b !in m
    ensures Count(m[b := l], name, full) ==
            Count(m, name, full) + (if name == b + "/*" && FullObjects(l) == full then 1 else 0)
                                 + (if name == b && FullBucket(l) == full then 1 else 0)
  {
    ParentOf(b);
  }

  ghost predicate Injective(f: (bool, string) -> Meaning) {
    forall f1, n1, f2, n2 :: f(f1, n1) == f(f2, n2) ==> f1 == f2 && n1 == n2
  }

  lemma TwoMore<T>(o: T, b: T, rest: seq<T>, x: T)
    ensures multiset([o, b] + rest)[x] == (if x == o then 1 else 0) + (if x == b then 1 else 0) + multiset(rest)[x]
  {
    assert multiset([o, b] + rest) == multiset{o, b} + multiset(rest);
  }

  lemma TuplesStep(g: Grant, rest: seq<Meaning>, f: (bool, string) -> Meaning, name: string, full: bool)
    requires Injective(f)
    ensures var two := [f(FullObjects(g.level), g.bucket + "/*"), f(FullBucket(g.level), g.bucket)];
            multiset(two + rest)[f(full, name)] ==
            multiset(rest)[f(full, name)] + (if name == g.bucket + "/*" && FullObjects(g.level) == full then 1 else 0)
                                          + (if name == g.bucket && FullBucket(g.level) == full then 1 else 0)
  {
    TwoMore(f(FullObjects(g.level), g.bucket + "/*"), f(FullBucket(g.level), g.bucket), rest, f(full, name));
  }

  /** Every tuple occurs as often as the grant map says. */
  lemma {:induction false} TuplesCount(gs: seq<Grant>, f: (bool, string) -> Meaning, name: string, full: bool)
    requires DistinctBuckets(gs) && Injective(f)
    ensures multiset(Tuples(gs, f))[f(full, name)] == Count(GrantMap(gs), name, full)
  {
    if |gs| > 0 {
      var g := gs[0];
      TuplesCount(gs[1..], f, name, full);
      MapMembers(gs);
      CountInsert(GrantMap(gs[1..]), g.bucket, g.level, name, full);
      TuplesStep(g, Tuples(gs[1..], f), f, name, full);
    }
  }

  ghost predicate IsTuple(t: Meaning, f: (bool, string) -> Meaning) {
    exists full, name :: t == f(full, name)
  }

  /** Nothing else is rendered. */
  lemma {:induction false} OnlyTuples(gs: seq<Grant>, f: (bool, string) -> Meaning, t: Meaning)
    requires t in Tuples(gs, f)
    ensures IsTuple(t, f)
  {
    if |gs| > 0 && t in Tuples(gs[1..], f) { OnlyTuples(gs[1..], f, t); }
  }

  ghost predicate SameCounts(m: map<string, Level>, n: map<string, Level>) {
    forall name, full :: Count(m, name, full) == Count(n, name, full)
  }

  lemma TuplesEqualIff(g: seq<Grant>, h: seq<Grant>, f: (bool, string) -> Meaning)
    requires DistinctBuckets(g) && DistinctBuckets(h) && Injective(f)
    ensures multiset(Tuples(g, f)) == multiset(Tuples(h, f)) <==> SameCounts(GrantMap(g), GrantMap(h))
  {
    var a, b := multiset(Tuples(g, f)), multiset(Tuples(h, f));
    if a == b {
      forall name, full ensures Count(GrantMap(g), name, full) == Count(GrantMap(h), name, full) {
        TuplesCount(g, f, name, full);
        TuplesCount(h, f, name, full);
      }
    }
    if SameCounts(GrantMap(g), GrantMap(h)) {
      forall t ensures a[t] == b[t] {
        if t in a { OnlyTuples(g, f, t); }
        if t in b { OnlyTuples(h, f, t); }
        if IsTuple(t, f) {
          var full, name :| t == f(full, name);
          TuplesCount(g, f, name, full);
          TuplesCount(h, f, name, full);
        }
      }
    }
  }

  // ---- rendered documents compare by their counts -----------------------------------------

  /** A statement on one resource whose effect and actions hold no separator. */
  predicate Single(s: Statement) {
    Clean(s) && |s.resource| == 1
  }

  lemma GrantStatementsSingle(g: Grant)
    ensures Single(ObjectStatement(g)) && Single(BucketStatement(g))
  {
    hide Arn, ArnObjects;
    ActionsClean(FullObjects(g.level));
    ActionsClean(FullBucket(g.level));
  }

  lemma ActionsClean(full: bool)
    ensures Parts(Actions(full), ',') && forall i | 0 <= i < |Actions(full)| :: Free(Actions(full)[i], '|')
  {
  }

  lemma {:induction false} PairsSingle(gs: seq<Grant>, ss: seq<Statement>)
    requires ss == Pairs(gs)
    requires forall g: Grant :: Single(ObjectStatement(g)) && Single(BucketStatement(g))
    ensures forall s | s in ss :: Single(s)
  {
    if |gs| > 0 {
      var rest := Pairs(gs[1..]);
      PairsSingle(gs[1..], rest);
      assert Single(ObjectStatement(gs[0])) && Single(BucketStatement(gs[0]));
      assert ss == [ObjectStatement(gs[0]), BucketStatement(gs[0])] + rest;
    }
  }

  lemma RenderedSingle(g: seq<Grant>, ss: seq<Statement>)
    requires ss == Rendered(g)
    ensures forall s | s in ss :: Single(s)
  {
    forall x: Grant ensures Single(ObjectStatement(x)) && Single(BucketStatement(x)) { GrantStatementsSingle(x); }
    var pairs := Pairs(SortGrants(g));
    PairsSingle(SortGrants(g), pairs);
    BaseSingle();
    assert ss == [BASE] + pairs;
  }

  lemma BaseSingle()
    ensures Single(BASE)
  {
  }

  lemma AllSingle(a: seq<Statement>, b: seq<Statement>)
    requires (forall s | s in a :: Single(s)) && (forall s | s in b :: Single(s))
    ensures AllComparable(a, b)
  {
  }

  lemma CancelBase(base: Meaning, x: seq<Meaning>, y: seq<Meaning>)
    ensures multiset([base] + x) == multiset([base] + y) <==> multiset(x) == multiset(y)
  {
    assert multiset([base] + x) - multiset{base} == multiset(x);
    assert multiset([base] + y) - multiset{base} == multiset(y);
  }

  lemma HeadMeaning(s: Statement, rest: seq<Statement>)
    ensures MeaningAll([s] + rest) == [MeaningOf(s)] + MeaningAll(rest)
  {
    assert ([s] + rest)[1..] == rest;
  }

  lemma TupleFunction() returns (f: (bool, string) -> Meaning)
    ensures Written(f) && Injective(f)
  {
    f := (full, name) => Tuple(full, name);
    forall g: Grant
      ensures MeaningOf(ObjectStatement(g)) == f(FullObjects(g.level), g.bucket + "/*")
           && MeaningOf(BucketStatement(g)) == f(FullBucket(g.level), g.bucket)
    {
      StatementMeanings(g);
    }
    forall f1, n1, f2, n2 | f(f1, n1) == f(f2, n2) ensures f1 == f2 && n1 == n2 {
      TupleInjective(f1, n1, f2, n2);
    }
  }

  lemma SameRendered(g: seq<Grant>, h: seq<Grant>, a: seq<Statement>, b: seq<Statement>)
    requires DistinctBuckets(g) && DistinctBuckets(h) && a == Rendered(g) && b == Rendered(h)
    ensures SameMeaning(a, b) <==> SameCounts(GrantMap(g), GrantMap(h))
  {
    var f := TupleFunction();
    var sg, sh := SortGrants(g), SortGrants(h);
    SortedMap(g);
    SortedMap(h);
    PairMeanings(sg, f);
    PairMeanings(sh, f);
    TuplesEqualIff(sg, sh, f);
    HeadMeaning(BASE, Pairs(sg));
    HeadMeaning(BASE, Pairs(sh));
    CancelBase(MeaningOf(BASE), Tuples(sg, f), Tuples(sh, f));
  }

  lemma RenderedEqualIff(g: seq<Grant>, h: seq<Grant>)
    requires DistinctBuckets(g) && DistinctBuckets(h)
    ensures EqualPolicies(Some(Rendered(g)), Some(Rendered(h))) <==> SameCounts(GrantMap(g), GrantMap(h))
  {
    var a, b := Rendered(g), Rendered(h);
    RenderedSingle(g, a);
    RenderedSingle(h, b);
    AllSingle(a, b);
    PoliciesEqualExact(a, b);
    SameRendered(g, h, a, b);
  }

  // ---- when the counts determine the grants -------------------------------------------------

  /**
   A bucket and the name it becomes with a slash and a star, whose statements could have been written by two other
   levels.
   */
  predicate ConfusablePair(m: map<string, Level>, b: string) {
    && b in m && b + "/*" in m
    && ((m[b].Read? && m[b + "/*"].Admin?) || (m[b].ReadWrite? && m[b + "/*"].ReadWrite?))
  }

  predicate Confusable(g: seq<Grant>) {
    exists b | b in GrantMap(g) :: ConfusablePair(GrantMap(g), b)
  }

  function Total(m: map<string, Level>, name: string): nat {
    Count(m, name, true) + Count(m, name, false)
  }

  /** Equal counts have equal bucket sets: shorter names are settled first. */
  lemma {:induction false} SameKeys(m: map<string, Level>, n: map<string, Level>, name: string)
    requires SameCounts(m, n)
    ensures name in m <==> name in n
    decreases |name|
  {
    assert Total(m, name) == Total(n, name);
    if HasSuffix(name, "/*") { SameKeys(m, n, Parent(name)); }
  }

  lemma AllKeys(m: map<string, Level>, n: map<string, Level>)
    requires SameCounts(m, n)
    ensures m.Keys == n.Keys
  {
    forall b ensures b in m <==> b in n { SameKeys(m, n, b); }
  }

  /** What the counts at a bucket's object resource say about the two grants that write there. */
  lemma Exchange(m: map<string, Level>, n: map<string, Level>, b: string)
    requires SameCounts(m, n) && m.Keys == n.Keys && b in m
    ensures var t := b + "/*";
            if t in m then
              (if FullObjects(m[b]) then 1 else 0) + (if FullBucket(m[t]) then 1 else 0) ==
              (if FullObjects(n[b]) then 1 else 0) + (if FullBucket(n[t]) then 1 else 0)
            else FullObjects(m[b]) == FullObjects(n[b])
    ensures FullBucket(m[b]) != FullBucket(n[b]) ==> HasSuffix(b, "/*") && Parent(b) in m
  {
    ParentOf(b);
    var t := b + "/*";
    assert Count(m, t, true) == Count(n, t, true);
    assert Count(m, b, true) == Count(n, b, true);
  }

  /** Equal counts and different levels need a confusable pair on the left side. */
  lemma DifferenceNeedsPair(m: map<string, Level>, n: map<string, Level>)
    requires SameCounts(m, n) && m.Keys == n.Keys && m != n
    ensures exists b | b in m :: ConfusablePair(m, b)
  {
    var differ := set b | b in m && FullBucket(m[b]) != FullBucket(n[b]);
    if up :| up in differ && FullBucket(m[up]) {
      Exchange(m, n, up);
      var b := Parent(up);
      ParentOf(b);
      Exchange(m, n, b);
      assert ConfusablePair(m, b);
    } else if differ != {} {
      var r := Longest(differ);
      Exchange(m, n, r);
      var b := Parent(r);
      ParentOf(b);
      ParentOf(r);
      Exchange(m, n, b);
      assert b !in differ;
      assert FullObjects(m[b]) && !FullObjects(n[b]);
      assert !FullBucket(n[b]) && m[b].ReadWrite?;
      var t := r + "/*";
      assert |t| > |r| && t !in differ;
      assert FullObjects(m[r]) && m[r].ReadWrite?;
      assert ConfusablePair(m, b);
    } else {
      assert forall b | b in m :: b !in differ;
      SameBucketsSameObjects(m, n);
    }
  }

  /** Without a difference in bucket statements there is none in object statements. */
  lemma SameBucketsSameObjects(m: map<string, Level>, n: map<string, Level>)
    requires SameCounts(m, n) && m.Keys == n.Keys
    requires forall b | b in m :: FullBucket(m[b]) == FullBucket(n[b])
    ensures m == n
  {
    forall b | b in m ensures m[b] == n[b] {
      Exchange(m, n, b);
      assert FullObjects(m[b]) == FullObjects(n[b]);
    }
  }

  lemma {:induction false} LongestExists(names: set<string>)
    requires names != {}
    ensures exists x :: x in names && forall y | y in names :: |y| <= |x|
  {
    var x :| x in names;
    if names == {x} {
      assert forall y | y in names :: y == x;
    } else {
      LongestExists(names - {x});
      var z :| z in names - {x} && forall y | y in names - {x} :: |y| <= |z|;
      var best := if |z| >= |x| then z else x;
      assert best in names && forall y | y in names :: y == x || y in names - {x};
    }
  }

  ghost function Longest(names: set<string>): (x: string)
    requires names != {}
    ensures x in names && forall y | y in names :: |y| <= |x|
  {
    LongestExists(names);
    var x :| x in names && forall y | y in names :: |y| <= |x|;
    x
  }

  /** The other way to write a confusable pair. */
  function Swapped(m: map<string, Level>, b: string): map<string, Level>
    requires ConfusablePair(m, b)
  {
    if m[b].Read? then m[b := ReadWrite][b + "/*" := ReadWrite] else m[b := Read][b + "/*" := Admin]
  }

  lemma SwappedCounts(m: map<string, Level>, b: string)
    requires ConfusablePair(m, b)
    ensures SameCounts(m, Swapped(m, b)) && Swapped(m, b) != m
  {
    var n := Swapped(m, b);
    assert b != b + "/*" && m[b] != n[b];
    hide Swapped, Count;
    forall name, full ensures Count(m, name, full) == Count(n, name, full) {
      SwappedCount(m, b, name, full);
    }
  }

  /** Only the statements on the starred name change hands. */
  lemma SwappedCount(m: map<string, Level>, b: string, name: string, full: bool)
    requires ConfusablePair(m, b)
    ensures Count(m, name, full) == Count(Swapped(m, b), name, full)
  {
    ParentOf(b);
    if name != b + "/*" && HasSuffix(name, "/*") {
      assert name == Parent(name) + "/*";
      assert Parent(name) != b;
    }
  }

  function ListOf(m: map<string, Level>, gs: seq<Grant>): seq<Grant>
    requires forall g | g in gs :: g.bucket in m
  {
    seq(|gs|, i requires 0 <= i < |gs| => Grant(gs[i].bucket, m[gs[i].bucket]))
  }

  lemma ListOfMap(m: map<string, Level>, gs: seq<Grant>)
    requires DistinctBuckets(gs) && m.Keys == GrantMap(gs).Keys
    ensures forall g | g in gs :: g.bucket in m
    ensures DistinctBuckets(ListOf(m, gs)) && GrantMap(ListOf(m, gs)) == m
  {
    MapMembers(gs);
    forall g | g in gs ensures g.bucket in m {
      assert Grant(g.bucket, g.level) in gs;
    }
    var l := ListOf(m, gs);
    MapMembers(l);
    forall b | b in m ensures b in GrantMap(l) && GrantMap(l)[b] == m[b] {
      var k := Grant(b, GrantMap(gs)[b]);
      assert k in gs;
      var i :| 0 <= i < |gs| && gs[i] == k;
      assert l[i] == Grant(b, m[b]) && l[i] in l;
    }
    forall b | b in GrantMap(l) ensures b in m {
      assert Grant(b, GrantMap(l)[b]) in l;
    }
  }

  /** No other grant list renders to this one's policy, up to order. */
  ghost predicate Unambiguous(g: seq<Grant>) {
    forall h | DistinctBuckets(h) :: EqualPolicies(Some(Rendered(g)), Some(Rendered(h))) <==> SameGrants(g, h)
  }

  /** Rendering identifies the grants exactly when no two of them are a confusable pair. */
  lemma RenderingInjectiveIff(g: seq<Grant>)
    requires DistinctBuckets(g)
    ensures Unambiguous(g) <==> !Confusable(g)
  {
    var m := GrantMap(g);
    if Confusable(g) {
      var b :| b in m && ConfusablePair(m, b);
      var n := Swapped(m, b);
      SwappedCounts(m, b);
      assert n.Keys == m.Keys;
      ListOfMap(n, g);
      RenderedEqualIff(g, ListOf(n, g));
    } else {
      forall h | DistinctBuckets(h)
        ensures EqualPolicies(Some(Rendered(g)), Some(Rendered(h))) <==> SameGrants(g, h)
      {
        RenderedEqualIff(g, h);
        if SameCounts(m, GrantMap(h)) {
          AllKeys(m, GrantMap(h));
          if m != GrantMap(h) { DifferenceNeedsPair(m, GrantMap(h)); }
        }
      }
    }
  }

  lemma SlashInside(b: string)
    ensures !Free(b + "/*", '/')
    ensures HasSuffix(b, "/*") ==> !Free(b, '/')
  {
    assert (b + "/*")[|b|] == '/';
    if HasSuffix(b, "/*") { assert b[|b| - 2] == b[|b| - 2..][0] == '/'; }
  }

  lemma KeysFree(g: seq<Grant>, b: string)
    requires DistinctBuckets(g) && forall x | x in g :: Free(x.bucket, '/')
    ensures b in GrantMap(g) ==> Free(b, '/')
    ensures b + "/*" !in GrantMap(g)
  {
    MapMembers(g);
    SlashInside(b);
    forall k | k in GrantMap(g) ensures Free(k, '/') {
      assert Grant(k, GrantMap(g)[k]) in g;
    }
  }

  /** Bucket names without a slash are never confusable. */
  lemma SlashFreeUnambiguous(g: seq<Grant>)
    requires DistinctBuckets(g) && forall x | x in g :: Free(x.bucket, '/')
    ensures Unambiguous(g)
  {
    forall b | b in GrantMap(g) ensures !ConfusablePair(GrantMap(g), b) {
      KeysFree(g, b);
    }
    RenderingInjectiveIff(g);
  }

  // ---- recovering a level ---------------------------------------------------------------------

  predicate Writes(m: map<string, Level>, name: string, full: bool) {
    || (name in m && (full ==> FullBucket(m[name])))
    || (HasSuffix(name, "/*") && Parent(name) in m && (full ==> FullObjects(m[Parent(name)])))
  }

  lemma ArnInjective(a: string, b: string)
    ensures Arn(a) == Arn(b) <==> a == b
    ensures ArnObjects(a) == Arn(a + "/*")
    ensures Arn(a) != "*"
  {
    assert Arn(a)[|ARN_PREFIX|..] == a && Arn(b)[|ARN_PREFIX|..] == b;
    assert ArnObjects(a) == ARN_PREFIX + (a + "/*");
    assert |Arn(a)| > 1;
  }

  lemma OneStatement(g: Grant, name: string, full: bool)
    ensures Mentions(ObjectStatement(g), Arn(name), full) <==>
            name == g.bucket + "/*" && (full ==> FullObjects(g.level))
    ensures Mentions(BucketStatement(g), Arn(name), full) <==> name == g.bucket && (full ==> FullBucket(g.level))
  {
    ArnInjective(name, g.bucket);
    ArnInjective(g.bucket, name);
    ArnInjective(name, g.bucket + "/*");
    assert "s3:*" in Actions(true) && "s3:*" !in Actions(false);
  }

  lemma {:induction false} PairsMention(gs: seq<Grant>, name: string, full: bool)
    requires DistinctBuckets(gs)
    ensures Mentioned(Pairs(gs), Arn(name), full) <==> Writes(GrantMap(gs), name, full)
  {
    if |gs| > 0 {
      hide Mentions, Arn, ArnObjects, Actions, Mentioned, Writes;
      var g := gs[0];
      PairsMention(gs[1..], name, full);
      MapMembers(gs);
      OneStatement(g, name, full);
      MentionedTwo(ObjectStatement(g), BucketStatement(g), Pairs(gs[1..]), Arn(name), full);
      WritesInsert(GrantMap(gs[1..]), g.bucket, g.level, name, full);
    }
  }

  lemma MentionedTwo(o: Statement, b: Statement, rest: seq<Statement>, arn: string, full: bool)
    ensures Mentioned([o, b] + rest, arn, full) <==>
            Mentions(o, arn, full) || Mentions(b, arn, full) || Mentioned(rest, arn, full)
  {
    hide Mentions;
    assert forall s :: s in [o, b] + rest <==> s == o || s == b || s in rest;
  }

  lemma WritesInsert(m: map<string, Level>, b: string, l: Level, name: string, full: bool)
    requires b !in m
    ensures Writes(m[b := l], name, full) <==>
            || Writes(m, name, full) || (name == b + "/*" && (full ==> FullObjects(l)))
                || (name == b && (full ==> FullBucket(l)))
  {
    ParentOf(b);
  }

  lemma RenderedMention(g: seq<Grant>, name: string, full: bool)
    requires DistinctBuckets(g)
    ensures Mentioned(Rendered(g), Arn(name), full) <==> Writes(GrantMap(g), name, full)
  {
    SortedMap(g);
    PairsMention(SortGrants(g), name, full);
    ArnInjective(name, name);
    var doc, pairs := Rendered(g), Pairs(SortGrants(g));
    assert forall s :: s in doc <==> s == BASE || s in pairs;
    assert !Mentions(BASE, Arn(name), full);
  }

  function Declared(g: seq<Grant>, q: string): Option<Level> {
    if q in GrantMap(g) then Some(GrantMap(g)[q]) else None
  }

  /** What the names one slash-star away from `q`, above and below, must not be granted. */
  predicate Undisturbed(m: map<string, Level>, q: string) {
    var above, below := HasSuffix(q, "/*") && Parent(q) in m, q + "/*" in m;
    if q !in m then !above && !below
    else match m[q]
      case Read => !(below && FullBucket(m[q + "/*"]))
      case ReadWrite => !(above && FullObjects(m[Parent(q)]))
      case Admin => true
  }

  /** The rendered policy gives a bucket its own level back exactly when its neighbours stay out of it. */
  lemma DeriveExactIff(g: seq<Grant>, q: string)
    requires DistinctBuckets(g)
    ensures Derived(Rendered(g), q) == Declared(g, q) <==> Undisturbed(GrantMap(g), q)
  {
    ArnInjective(q, q);
    ParentOf(q);
    RenderedMention(g, q, true);
    RenderedMention(g, q, false);
    RenderedMention(g, q + "/*", true);
    RenderedMention(g, q + "/*", false);
  }

  /** For slash-free names every query is answered with the declared level, or with absence. */
  lemma DeriveRoundTrip(g: seq<Grant>, q: string)
    requires DistinctBuckets(g) && Free(q, '/') && forall x | x in g :: Free(x.bucket, '/')
    ensures Derived(Rendered(g), q) == Declared(g, q)
  {
    KeysFree(g, q);
    SlashInside(q);
    DeriveExactIff(g, q);
  }

  // ---- what a rendered policy says, statement by statement ------------------------------------

  /** The objects statement of a grant. */
  predicate IsObjects(s: Statement, g: Grant) {
    && s.effect == "Allow" && s.resource == ["arn:aws:s3:::" + g.bucket + "/*"]
    && s.sid == (if g.level.Read? then "AllowReadObjectsInBucket" else "AllowFullAccessToObjects")
    && s.action == if g.level.Read? then ["s3:Get*", "s3:List*"] else ["s3:*"]
  }

  /** The bucket statement of a grant. */
  predicate IsBucket(s: Statement, g: Grant) {
    && s.effect == "Allow" && s.resource == ["arn:aws:s3:::" + g.bucket]
    && s.sid == (if g.level.Admin? then "AllowFullBucketAccess" else "AllowReadBucketMetadata")
    && s.action == if g.level.Admin? then ["s3:*"] else ["s3:Get*", "s3:List*"]
  }

  lemma {:induction false} PairsInOrder(gs: seq<Grant>)
    ensures |Pairs(gs)| == 2 * |gs|
    ensures forall k | 0 <= k < |gs| :: IsObjects(Pairs(gs)[2 * k], gs[k]) && IsBucket(Pairs(gs)[2 * k + 1], gs[k])
  {
    if |gs| > 0 {
      var rest := Pairs(gs[1..]);
      PairsInOrder(gs[1..]);
      IsStatements(gs[0]);
      assert Pairs(gs) == [ObjectStatement(gs[0]), BucketStatement(gs[0])] + rest;
      forall k | 0 < k < |gs|
        ensures Pairs(gs)[2 * k] == rest[2 * (k - 1)] && Pairs(gs)[2 * k + 1] == rest[2 * (k - 1) + 1]
        ensures gs[k] == gs[1..][k - 1]
      {
      }
    }
  }

  lemma IsStatements(g: Grant)
    ensures IsObjects(ObjectStatement(g), g) && IsBucket(BucketStatement(g), g)
  {
    assert ArnObjects(g.bucket) == "arn:aws:s3:::" + g.bucket + "/*";
  }

  /** Behind the base statement each grant has its objects and then its bucket statement. */
  predicate InOrder(doc: seq<Statement>, gs: seq<Grant>) {
    && |doc| == 1 + 2 * |gs|
    && doc[0] == Statement("IamListAllMyBuckets", "Allow", ["s3:ListAllMyBuckets"], ["*"])
    && forall k | 0 <= k < |gs| :: IsObjects(doc[1 + 2 * k], gs[k]) && IsBucket(doc[2 + 2 * k], gs[k])
  }

  /** A policy is rendered statement by statement, grants in bucket order. */
  lemma RenderedInOrder(gs: seq<Grant>)
    ensures var sorted := SortGrants(gs);
            SortedGrants(sorted) && multiset(sorted) == multiset(gs) && InOrder(Rendered(gs), sorted)
  {
    SortGrantsSorts(gs);
    PairsInOrder(SortGrants(gs));
    BaseFirst(Pairs(SortGrants(gs)), SortGrants(gs));
  }

  lemma BaseFirst(pairs: seq<Statement>, gs: seq<Grant>)
    requires |pairs| == 2 * |gs|
    requires forall k | 0 <= k < |gs| :: IsObjects(pairs[2 * k], gs[k]) && IsBucket(pairs[2 * k + 1], gs[k])
    ensures InOrder([BASE] + pairs, gs)
  {
    hide IsObjects, IsBucket;
    var doc := [BASE] + pairs;
    forall k | 0 <= k < |gs| ensures IsObjects(doc[1 + 2 * k], gs[k]) && IsBucket(doc[2 + 2 * k], gs[k]) {
      assert doc[1 + 2 * k] == pairs[2 * k] && doc[2 + 2 * k] == pairs[2 * k + 1];
    }
  }

  // ---- what a rendered policy allows -------------------------------------------------------

  predicate Allows(doc: seq<Statement>, action: string, resource: string) {
    exists s | s in doc :: s.effect == "Allow" && action in s.action && resource in s.resource
  }

  predicate Permits(full: bool, action: string) {
    if full then action == "s3:*" else action == "s3:Get*" || action == "s3:List*"
  }

  /** Listing one's buckets; a granted bucket's objects in full unless it is Read; the bucket in full only if Admin. */
  predicate Entitled(gs: seq<Grant>, action: string, resource: string) {
    || (action == "s3:ListAllMyBuckets" && resource == "*")
    || exists g | g in gs ::
         || (resource == "arn:aws:s3:::" + g.bucket + "/*" && Permits(!g.level.Read?, action))
         || (resource == "arn:aws:s3:::" + g.bucket && Permits(g.level.Admin?, action))
  }

  lemma {:induction false} PairMembers(gs: seq<Grant>)
    ensures forall s :: s in Pairs(gs) <==> exists g :: g in gs && (s == ObjectStatement(g) || s == BucketStatement(g))
  {
    hide ObjectStatement, BucketStatement;
    if |gs| > 0 {
      PairMembers(gs[1..]);
      assert forall g :: g in gs <==> g == gs[0] || g in gs[1..];
    }
  }

  lemma StatementAllows(g: Grant, action: string, resource: string)
    ensures Allows([ObjectStatement(g)], action, resource) <==>
            resource == "arn:aws:s3:::" + g.bucket + "/*" && Permits(!g.level.Read?, action)
    ensures Allows([BucketStatement(g)], action, resource) <==>
            resource == "arn:aws:s3:::" + g.bucket && Permits(g.level.Admin?, action)
  {
    assert ObjectStatement(g) in [ObjectStatement(g)] && BucketStatement(g) in [BucketStatement(g)];
    assert ArnObjects(g.bucket) == "arn:aws:s3:::" + g.bucket + "/*";
  }

  /** A rendered policy allows exactly what the grants entitle to, and denies nothing. */
  lemma RenderedAllowsIff(gs: seq<Grant>)
    ensures forall s | s in Rendered(gs) :: s.effect == "Allow"
    ensures forall action, resource :: Allows(Rendered(gs), action, resource) <==> Entitled(gs, action, resource)
  {
    var doc := Rendered(gs);
    var sorted := SortGrants(gs);
    SortGrantsSorts(gs);
    PairMembers(sorted);
    forall g ensures g in sorted <==> g in gs { assert g in multiset(sorted) <==> g in multiset(gs); }
    forall s ensures s in doc <==> s == BASE || s in Pairs(sorted) {
    }
    forall action, resource ensures Allows(doc, action, resource) <==> Entitled(gs, action, resource) {
      AllowsIff(gs, doc, action, resource);
    }
  }

  lemma AllowsIff(gs: seq<Grant>, doc: seq<Statement>, action: string, resource: string)
    requires forall s :: s in doc <==>
               s == BASE || exists g :: g in gs && (s == ObjectStatement(g) || s == BucketStatement(g))
    ensures Allows(doc, action, resource) <==> Entitled(gs, action, resource)
  {
    hide ObjectStatement, BucketStatement, Permits;
    forall g ensures Allows([ObjectStatement(g)], action, resource) <==>
        resource == "arn:aws:s3:::" + g.bucket + "/*" && Permits(!g.level.Read?, action)
      ensures Allows([BucketStatement(g)], action, resource) <==>
        resource == "arn:aws:s3:::" + g.bucket && Permits(g.level.Admin?, action)
    {
      StatementAllows(g, action, resource);
    }
    assert BASE in doc;
    assert forall g | g in gs :: ObjectStatement(g) in doc && BucketStatement(g) in doc;
    forall g: Grant ensures ObjectStatement(g) in [ObjectStatement(g)] && BucketStatement(g) in [BucketStatement(g)] {
    }
  }
}
