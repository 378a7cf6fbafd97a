/** Which policies the canonical comparison tells from every other document. */
module PolicyExactness {
  import opened Wrappers
  import opened Text
  import opened Policy
  import opened PolicyTheorems

  // ---- which documents the comparison tells from every other one -----------------------------

  /** No comma cuts the text into two parts that are already in order. */
  predicate Uncut(x: string) {
    forall i | 0 <= i < |x| && x[i] == ',' :: !Leq(x[..i], x[i + 1..])
  }

  /** A list whose joined text is the text of no other list. */
  predicate Sole(xs: seq<string>) {
    |xs| == 1 && xs[0] != "" && Uncut(xs[0])
  }

  /** Nothing in the line can be read in a second way. */
  predicate Crisp(s: Statement) {
    && Free(s.effect, '|')
    && Sole(s.action) && Free(s.action[0], '|')
    && Sole(s.resource) && Free(s.resource[0], '|')
  }

  lemma {:induction false} PrefixLeq(a: string, b: string)
    ensures Leq(a, a + b)
  {
    if |a| > 0 {
      assert (a + b)[1..] == a[1..] + b;
      PrefixLeq(a[1..], b);
    }
  }

  lemma PairJoin(x: string, y: string)
    requires Leq(x, y)
    ensures Join(Sort([x, y]), ',') == x + [','] + y
  {
    SortSorts([x, y]);
    assert [x, y][1..] == [y] && [y][1..] == [];
    assert Sort([]) == [] && Sort([y]) == [y] && Sort([x, y]) == [x, y];
    assert Join([y], ',') == y;
  }

  lemma JoinStarts(zs: seq<string>)
    requires |zs| >= 1
    ensures Leq(zs[0], Join(zs, ','))
  {
    PrefixLeq(zs[0], if |zs| == 1 then "" else [','] + Join(zs[1..], ','));
    if |zs| == 1 { assert zs[0] + "" == zs[0]; }
    else { assert Join(zs, ',') == zs[0] + ([','] + Join(zs[1..], ',')); }
  }

  lemma CutAt(a: string, b: string)
    requires Leq(a, b)
    ensures !Uncut(a + [','] + b)
  {
    var x := a + [','] + b;
    assert x[|a|] == ',' && x[..|a|] == a && x[|a| + 1..] == b;
  }

  /** A text joined from two or more sorted parts is cut by its first joining comma. */
  lemma JoinedIsCut(zs: seq<string>)
    requires |zs| >= 2 && Sorted(zs)
    ensures !Uncut(Join(zs, ','))
  {
    hide Uncut, Leq;
    JoinStarts(zs[1..]);
    assert Leq(zs[0], zs[1]);
    LeqTransitive(zs[0], zs[1], Join(zs[1..], ','));
    CutAt(zs[0], Join(zs[1..], ','));
  }

  /** A sole list is read back from its text. */
  lemma SoleReadsBack(xs: seq<string>, ys: seq<string>)
    requires Sole(xs) && Join(Sort(xs), ',') == Join(Sort(ys), ',')
    ensures ys == xs
  {
    SingleJoin(xs);
    SortSorts(ys);
    if |ys| >= 2 { JoinedIsCut(Sort(ys)); }
    if |ys| == 1 {
      SingleJoin(ys);
      assert ys == [ys[0]] && xs == [xs[0]];
    }
  }

  /** Any other list shares its text with a list of another content. */
  lemma NotSoleIsShared(xs: seq<string>) returns (ys: seq<string>)
    requires !Sole(xs)
    ensures Join(Sort(xs), ',') == Join(Sort(ys), ',') && multiset(xs) != multiset(ys)
  {
    SortSorts(xs);
    if |xs| != 1 {
      ys := [Join(Sort(xs), ',')];
      SingleJoin(ys);
      assert |multiset(xs)| == |xs| && |multiset(ys)| == 1;
    } else {
      SingleJoin(xs);
      if xs[0] == "" {
        ys := [];
        assert Sort(ys) == [];
        assert |multiset(xs)| == 1;
      } else {
        var x := xs[0];
        var i :| 0 <= i < |x| && x[i] == ',' && Leq(x[..i], x[i + 1..]);
        ys := [x[..i], x[i + 1..]];
        PairJoin(x[..i], x[i + 1..]);
        assert x == x[..i] + [','] + x[i + 1..];
        assert |multiset(xs)| == 1 && |multiset(ys)| == 2;
      }
    }
  }

  function Line(effect: string, actions: string, resources: string): string {
    effect + ['|'] + (actions + ['|'] + resources)
  }

  lemma LineOfStatement(s: Statement)
    ensures Canonical(s) == Line(ToLower(s.effect), Join(Sort(s.action), ','), Join(Sort(s.resource), ','))
  {
  }

  lemma PipesOfLine(e: string, a: string, r: string)
    ensures Pipes(Line(e, a, r)) == 2 + Pipes(e) + Pipes(a) + Pipes(r)
  {
    PipesJoined(a, r);
    PipesJoined(e, a + ['|'] + r);
  }

  lemma PlainLine(e: string, a: string, r: string, f: string, b: string, q: string)
    requires Free(e, '|') && Free(a, '|') && Free(r, '|') && Line(e, a, r) == Line(f, b, q)
    ensures e == f && a == b && r == q
  {
    PipesOfLine(e, a, r);
    PipesOfLine(f, b, q);
    FreeHasNoPipes(e);
    FreeHasNoPipes(a);
    FreeHasNoPipes(r);
    FreeHasNoPipes(f);
    FreeHasNoPipes(b);
    CutUnique(e, f, a + ['|'] + r, b + ['|'] + q, '|');
    CutUnique(a, b, r, q, '|');
  }

  lemma PipeInEffect(e: string)
    ensures Free(ToLower(e), '|') <==> Free(e, '|')
  {
    forall i | 0 <= i < |e| ensures ToLower(e)[i] == '|' <==> e[i] == '|' {
      assert ToLower(e)[i] == LowerChar(e[i]);
    }
  }

  /** A crisp statement shares its line with statements of its own meaning only. */
  lemma CrispReadsBack(s: Statement, t: Statement)
    requires Crisp(s) && Canonical(s) == Canonical(t)
    ensures MeaningOf(s) == MeaningOf(t)
  {
    PipeInEffect(s.effect);
    SingleJoin(s.action);
    SingleJoin(s.resource);
    PlainLine(ToLower(s.effect), s.action[0], s.resource[0], ToLower(t.effect), Join(Sort(t.action), ','),
        Join(Sort(t.resource), ','));
    SoleReadsBack(s.action, t.action);
    SoleReadsBack(s.resource, t.resource);
  }

  /** A statement with single texts. */
  lemma Plain(e: string, a: string, r: string) returns (t: Statement)
    ensures t == Statement("", e, [a], [r]) && Canonical(t) == Line(ToLower(e), a, r)
  {
    t := Statement("", e, [a], [r]);
    SingleJoin([a]);
    SingleJoin([r]);
  }

  /** Any other statement shares its line with one of another meaning. */
  lemma Shared(s: Statement) returns (t: Statement)
    requires !Crisp(s)
    ensures Canonical(s) == Canonical(t) && MeaningOf(s) != MeaningOf(t)
  {
    hide Sort, Join;
    var e, a, r := ToLower(s.effect), Join(Sort(s.action), ','), Join(Sort(s.resource), ',');
    LineOfStatement(s);
    PipeInEffect(s.effect);
    if !Free(s.effect, '|') {
      t := SharedByEffect(s, e, a, r);
    } else if !Free(a, '|') {
      var x, y := FirstPipe(a);
      t := Plain(s.effect, x, y + ['|'] + r);
      TextDiffers(s.action, x);
    } else if !Free(r, '|') {
      var x, y := FirstPipe(r);
      t := Plain(s.effect, a + ['|'] + x, y);
      assert |a + ['|'] + x| > |a|;
      TextDiffers(s.action, a + ['|'] + x);
    } else if !Sole(s.action) {
      var ys := NotSoleIsShared(s.action);
      t := s.(action := ys);
    } else {
      SingleJoin(s.action);
      if Sole(s.resource) { SingleJoin(s.resource); }
      var ys := NotSoleIsShared(s.resource);
      t := s.(resource := ys);
    }
  }

  lemma SharedByEffect(s: Statement, e: string, a: string, r: string) returns (t: Statement)
    requires e == ToLower(s.effect) && !Free(e, '|') && Canonical(s) == Line(e, a, r)
    ensures Canonical(s) == Canonical(t) && MeaningOf(s) != MeaningOf(t)
  {
    hide Sort, Join, Line, Canonical, ToLower;
    var x, y := FirstPipe(e);
    LowerHead(s.effect, x, y);
    LineShift(x, y, a, r);
    t := Plain(x, y + ['|'] + a, r);
    assert |ToLower(t.effect)| < |e|;
  }

  lemma LineShift(x: string, y: string, a: string, r: string)
    ensures Line(x + ['|'] + y, a, r) == Line(x, y + ['|'] + a, r)
  {
  }

  lemma LowerHead(e: string, x: string, y: string)
    requires ToLower(e) == x + ['|'] + y
    ensures ToLower(x) == x
  {
    forall i | 0 <= i < |x| ensures LowerChar(x[i]) == x[i] {
      assert x[i] == (x + ['|'] + y)[i] == LowerChar(e[i]);
    }
  }

  lemma TextDiffers(xs: seq<string>, y: string)
    requires Join(Sort(xs), ',') != y
    ensures multiset(xs) != multiset([y])
  {
    SortEqualIff(xs, [y]);
    SingleJoin([y]);
  }

  /** Lines and meanings, statement by statement. */
  lemma {:induction false} Indexed(doc: seq<Statement>)
    ensures |CanonicalAll(doc)| == |doc| && forall k | 0 <= k < |doc| :: CanonicalAll(doc)[k] == Canonical(doc[k])
    ensures |MeaningAll(doc)| == |doc| && forall k | 0 <= k < |doc| :: MeaningAll(doc)[k] == MeaningOf(doc[k])
  {
    hide Canonical, MeaningOf;
    if |doc| > 0 { Indexed(doc[1..]); }
  }

  lemma SwapChanges(ms: seq<Meaning>, k: nat, m: Meaning)
    requires k < |ms| && ms[k] != m
    ensures multiset(ms) != multiset(ms[k := m])
  {
    assert multiset(ms[k := m])[m] == multiset(ms)[m] + 1;
  }

  /** A statement that is not crisp can be replaced by another one without the comparison noticing. */
  lemma NotCrispIsFooled(doc: seq<Statement>, s: Statement) returns (live: seq<Statement>)
    requires s in doc && !Crisp(s)
    ensures EqualPolicies(Some(doc), Some(live)) && !SameMeaning(doc, live)
  {
    hide Canonical, MeaningOf, CanonicalAll, MeaningAll, Crisp;
    var k :| 0 <= k < |doc| && doc[k] == s;
    var t := Shared(s);
    live := doc[k := t];
    Indexed(doc);
    Indexed(live);
    assert CanonicalAll(live) == CanonicalAll(doc);
    assert MeaningAll(live) == MeaningAll(doc)[k := MeaningOf(t)];
    SwapChanges(MeaningAll(doc), k, MeaningOf(t));
  }

  lemma CrispIsExact(doc: seq<Statement>, live: seq<Statement>)
    requires (forall s | s in doc :: Crisp(s)) && multiset(CanonicalAll(doc)) == multiset(CanonicalAll(live))
    ensures SameMeaning(doc, live)
  {
    hide Canonical, MeaningOf, CanonicalAll, MeaningAll, Crisp;
    forall s | s in doc ensures multiset(MeaningAll(doc))[MeaningOf(s)] == multiset(MeaningAll(live))[MeaningOf(s)] {
      forall t ensures Canonical(t) == Canonical(s) <==> MeaningOf(t) == MeaningOf(s) {
        if Canonical(t) == Canonical(s) { CrispReadsBack(s, t); }
        if MeaningOf(t) == MeaningOf(s) { MeaningDeterminesLine(s, t); }
      }
      SameCount(doc, s);
      SameCount(live, s);
    }
    forall m ensures multiset(MeaningAll(doc))[m] == multiset(MeaningAll(live))[m] {
      if m in multiset(MeaningAll(doc)) {
        var s := MeaningSource(doc, m);
      } else if m in multiset(MeaningAll(live)) {
        var t := MeaningSource(live, m);
        LineTarget(live, t);
        var s := LineSource(doc, Canonical(t));
        CrispReadsBack(s, t);
      }
    }
  }

  lemma LineTarget(doc: seq<Statement>, t: Statement)
    requires t in doc
    ensures Canonical(t) in multiset(CanonicalAll(doc))
  {
    var k :| 0 <= k < |doc| && doc[k] == t;
    Indexed(doc);
    assert CanonicalAll(doc)[k] == Canonical(t);
  }

  /** The comparison tells a document from every one that grants something else exactly when each statement is crisp. */
  lemma ComparesExactlyIff(doc: seq<Statement>)
    ensures (forall live :: EqualPolicies(Some(doc), Some(live)) <==> SameMeaning(doc, live)) <==>
        (forall s | s in doc :: Crisp(s))
  {
    hide Crisp, SameMeaning;
    if forall s | s in doc :: Crisp(s) {
      forall live ensures EqualPolicies(Some(doc), Some(live)) <==> SameMeaning(doc, live) {
        if SameMeaning(doc, live) { SameMeaningComparesEqual(doc, live); }
        if EqualPolicies(Some(doc), Some(live)) {
          SortEqualIff(CanonicalAll(doc), CanonicalAll(live));
          CrispIsExact(doc, live);
        }
      }
    } else {
      var s :| s in doc && !Crisp(s);
      var live := NotCrispIsFooled(doc, s);
    }
  }

  // ---- the documents the controller compares against -----------------------------------------

  /** A bucket whose two resource names cannot be read as something else. */
  predicate Unconfused(bucket: string) {
    Free(bucket, '|') && Uncut(Arn(bucket)) && Uncut(ArnObjects(bucket))
  }

  lemma BaseIsCrisp()
    ensures Crisp(BASE)
  {
    assert Free("Allow", '|') && Free("s3:ListAllMyBuckets", '|') && Free("*", '|');
    assert Free("s3:ListAllMyBuckets", ',') && Free("*", ',');
  }

  lemma FreeOfBoth(a: string, b: string, c: char)
    ensures Free(a + b, c) <==> Free(a, c) && Free(b, c)
  {
    if Free(a + b, c) {
      assert forall i | 0 <= i < |a| :: (a + b)[i] == a[i];
      assert forall i | 0 <= i < |b| :: (a + b)[|a| + i] == b[i];
    }
  }

  lemma ArnFree(bucket: string, c: char)
    requires c == '|' || c == ','
    ensures Free(Arn(bucket), c) <==> Free(bucket, c)
    ensures Free(ArnObjects(bucket), c) <==> Free(bucket, c)
  {
    var prefix, suffix: string := "arn:aws:s3:::", "/*";
    assert |prefix| == 13 && |suffix| == 2;
    assert Free(prefix, c) && Free(suffix, c);
    FreeOfBoth(prefix, bucket, c);
    FreeOfBoth(prefix + bucket, suffix, c);
  }

  lemma PairIsCrispIff(g: Grant)
    ensures Crisp(ObjectStatement(g)) && Crisp(BucketStatement(g)) <==> g.level.Admin? && Unconfused(g.bucket)
  {
    ArnFree(g.bucket, '|');
    assert Free("Allow", '|') && Free("s3:*", '|') && Free("s3:*", ',');
  }

  lemma {:induction false} PairsMembers(gs: seq<Grant>)
    ensures forall s :: s in Pairs(gs) <==> exists g :: g in gs && (s == ObjectStatement(g) || s == BucketStatement(g))
  {
    hide ObjectStatement, BucketStatement;
    if |gs| > 0 {
      PairsMembers(gs[1..]);
      assert forall g :: g in gs <==> g == gs[0] || g in gs[1..];
    }
  }

  /**
   A rendered policy is told from every document that grants something else exactly when each grant is Admin on an
   unconfused bucket: the two-action list of Read and ReadWrite always has a one-action double.
   */
  lemma RenderedExactIff(gs: seq<Grant>)
    ensures (forall live :: EqualPolicies(Some(Rendered(gs)), Some(live)) <==> SameMeaning(Rendered(gs), live)) <==>
            (forall g | g in gs :: g.level.Admin? && Unconfused(g.bucket))
  {
    hide Crisp, ObjectStatement, BucketStatement, SameMeaning, EqualPolicies, Unconfused;
    var doc, sorted := Rendered(gs), SortGrants(gs);
    ComparesExactlyIff(doc);
    BaseIsCrisp();
    SortGrantsSorts(gs);
    PairsMembers(sorted);
    forall g ensures g in sorted <==> g in gs { assert g in multiset(sorted) <==> g in multiset(gs); }
    assert forall s :: s in doc <==> s == BASE || s in Pairs(sorted);
    forall g | g in gs
      ensures (Crisp(ObjectStatement(g)) && Crisp(BucketStatement(g))) <==> g.level.Admin? && Unconfused(g.bucket)
    {
      PairIsCrispIff(g);
    }
    forall g | g in gs ensures ObjectStatement(g) in doc && BucketStatement(g) in doc {
      assert g in sorted;
    }
  }

  /** On names without pipe and comma, as the bucket-name pattern has them, only the level matters. */
  lemma RenderedExactByLevel(gs: seq<Grant>)
    requires forall g | g in gs :: Free(g.bucket, '|') && Free(g.bucket, ',')
    ensures (forall live :: EqualPolicies(Some(Rendered(gs)), Some(live)) <==> SameMeaning(Rendered(gs), live)) <==>
            (forall g | g in gs :: g.level.Admin?)
  {
    hide SameMeaning, EqualPolicies, Rendered;
    RenderedExactIff(gs);
    forall g | g in gs ensures Unconfused(g.bucket) {
      ArnFree(g.bucket, ',');
    }
  }
}
