/** Canonical comparison is comparison of meanings, on documents without separators exactly so. */
module PolicyTheorems {
  import opened Wrappers
  import opened Text
  import opened Policy

  /** What a statement grants: the effect and the two multisets, no Sid and no order. */
  datatype Meaning = Meaning(effect: string, actions: multiset<string>, resources: multiset<string>)

  function MeaningOf(s: Statement): Meaning {
    Meaning(ToLower(s.effect), multiset(s.action), multiset(s.resource))
  }

  function MeaningAll(doc: seq<Statement>): seq<Meaning> {
    if |doc| == 0 then [] else [MeaningOf(doc[0])] + MeaningAll(doc[1..])
  }

  predicate SameMeaning(a: seq<Statement>, b: seq<Statement>) {
    multiset(MeaningAll(a)) == multiset(MeaningAll(b))
  }

  // ---- one statement -----------------------------------------------------------------

  /** Strings the separators cannot be confused with. */
  predicate Clean(s: Statement) {
    && Free(s.effect, '|')
    && Parts(s.action, ',') && (forall i | 0 <= i < |s.action| :: Free(s.action[i], '|'))
    && (Parts(s.resource, ',') || |s.resource| == 1)
  }

  /** Both resource lists are separator-free, or both are single strings. */
  predicate Comparable(s: Statement, t: Statement) {
    && Clean(s) && Clean(t)
    && ((Parts(s.resource, ',') && Parts(t.resource, ',')) || (|s.resource| == 1 && |t.resource| == 1))
  }

  lemma SortParts(xs: seq<string>, sep: char)
    requires Parts(xs, sep)
    ensures Parts(Sort(xs), sep)
  {
    SortSorts(xs);
    forall i | 0 <= i < |Sort(xs)| ensures |Sort(xs)[i]| > 0 && Free(Sort(xs)[i], sep) {
      assert Sort(xs)[i] in multiset(xs);
    }
  }

  lemma JoinSortExact(xs: seq<string>, ys: seq<string>)
    requires Parts(xs, ',') && Parts(ys, ',')
    ensures Join(Sort(xs), ',') == Join(Sort(ys), ',') <==> multiset(xs) == multiset(ys)
  {
    SortParts(xs, ',');
    SortParts(ys, ',');
    SortEqualIff(xs, ys);
    if Join(Sort(xs), ',') == Join(Sort(ys), ',') { JoinInjective(Sort(xs), Sort(ys), ','); }
  }

  lemma SingleJoin(xs: seq<string>)
    requires |xs| == 1
    ensures Join(Sort(xs), ',') == xs[0]
  {
    assert xs[1..] == [] && Sort([]) == [];
    assert Insert(xs[0], []) == [xs[0]];
  }

  lemma SortFree(xs: seq<string>, c: char)
    requires c != ',' && forall i | 0 <= i < |xs| :: Free(xs[i], c)
    ensures Free(Join(Sort(xs), ','), c)
  {
    SortSorts(xs);
    forall i | 0 <= i < |Sort(xs)| ensures Free(Sort(xs)[i], c) {
      assert Sort(xs)[i] in multiset(xs);
    }
    JoinFree(Sort(xs), ',', c);
  }

  lemma ResourcesExact(s: Statement, t: Statement)
    requires Comparable(s, t)
    ensures Join(Sort(s.resource), ',') == Join(Sort(t.resource), ',') <==> multiset(s.resource) == multiset(t.resource)
  {
    if Parts(s.resource, ',') && Parts(t.resource, ',') {
      JoinSortExact(s.resource, t.resource);
    } else {
      SingleJoin(s.resource);
      SingleJoin(t.resource);
      assert s.resource == [s.resource[0]] && t.resource == [t.resource[0]];
      if multiset(s.resource) == multiset(t.resource) { assert s.resource[0] in multiset(t.resource); }
    }
  }

  /** The canonical line determines the meaning. */
  lemma CanonicalExact(s: Statement, t: Statement)
    requires Comparable(s, t)
    ensures Canonical(s) == Canonical(t) <==> MeaningOf(s) == MeaningOf(t)
  {
    JoinSortExact(s.action, t.action);
    ResourcesExact(s, t);
    if Canonical(s) == Canonical(t) {
      ToLowerFree(s.effect, '|');
      ToLowerFree(t.effect, '|');
      SortFree(s.action, '|');
      SortFree(t.action, '|');
      var sr, tr := Join(Sort(s.resource), ','), Join(Sort(t.resource), ',');
      CutUnique(ToLower(s.effect), ToLower(t.effect), Join(Sort(s.action), ',') + ['|'] + sr,
                Join(Sort(t.action), ',') + ['|'] + tr, '|');
      CutUnique(Join(Sort(s.action), ','), Join(Sort(t.action), ','), sr, tr, '|');
    }
  }

  /** Equal meanings have equal lines, whatever the strings are. */
  lemma MeaningDeterminesLine(s: Statement, t: Statement)
    requires MeaningOf(s) == MeaningOf(t)
    ensures Canonical(s) == Canonical(t)
  {
    SortEqualIff(s.action, t.action);
    SortEqualIff(s.resource, t.resource);
  }

  // ---- whole documents -------------------------------------------------------------------

  lemma {:induction false} SameCount(doc: seq<Statement>, s: Statement)
    requires forall t | t in doc :: Canonical(t) == Canonical(s) <==> MeaningOf(t) == MeaningOf(s)
    ensures multiset(CanonicalAll(doc))[Canonical(s)] == multiset(MeaningAll(doc))[MeaningOf(s)]
  {
    hide Canonical, MeaningOf;
    if |doc| > 0 {
      assert forall t | t in doc[1..] :: t in doc;
      assert doc[0] in doc;
      SameCount(doc[1..], s);
      TailMultiset(CanonicalAll(doc));
      TailMultiset(MeaningAll(doc));
      assert CanonicalAll(doc)[1..] == CanonicalAll(doc[1..]) && MeaningAll(doc)[1..] == MeaningAll(doc[1..]);
    }
  }

  lemma {:induction false} LineSource(doc: seq<Statement>, line: string) returns (s: Statement)
    requires line in multiset(CanonicalAll(doc))
    ensures s in doc && Canonical(s) == line
  {
    TailMultiset(CanonicalAll(doc));
    assert CanonicalAll(doc)[1..] == CanonicalAll(doc[1..]);
    if Canonical(doc[0]) == line { return doc[0]; }
    s := LineSource(doc[1..], line);
  }

  lemma {:induction false} MeaningSource(doc: seq<Statement>, m: Meaning) returns (s: Statement)
    requires m in multiset(MeaningAll(doc))
    ensures s in doc && MeaningOf(s) == m
  {
    TailMultiset(MeaningAll(doc));
    assert MeaningAll(doc)[1..] == MeaningAll(doc[1..]);
    if MeaningOf(doc[0]) == m { return doc[0]; }
    s := MeaningSource(doc[1..], m);
  }

  predicate AllComparable(a: seq<Statement>, b: seq<Statement>) {
    forall s, t | s in a + b && t in a + b :: Comparable(s, t)
  }

  lemma CountsAgree(a: seq<Statement>, b: seq<Statement>, s: Statement)
    requires AllComparable(a, b) && s in a + b
    ensures multiset(CanonicalAll(a))[Canonical(s)] == multiset(MeaningAll(a))[MeaningOf(s)]
    ensures multiset(CanonicalAll(b))[Canonical(s)] == multiset(MeaningAll(b))[MeaningOf(s)]
  {
    forall t | t in a + b ensures Canonical(t) == Canonical(s) <==> MeaningOf(t) == MeaningOf(s) {
      CanonicalExact(t, s);
    }
    assert forall t | t in a :: t in a + b;
    assert forall t | t in b :: t in a + b;
    SameCount(a, s);
    SameCount(b, s);
  }

  lemma LinesImplyMeaning(a: seq<Statement>, b: seq<Statement>)
    requires AllComparable(a, b) && multiset(CanonicalAll(a)) == multiset(CanonicalAll(b))
    ensures SameMeaning(a, b)
  {
    forall m ensures multiset(MeaningAll(a))[m] == multiset(MeaningAll(b))[m] {
      if m in multiset(MeaningAll(a)) {
        var s := MeaningSource(a, m);
        CountsAgree(a, b, s);
      } else if m in multiset(MeaningAll(b)) {
        var s := MeaningSource(b, m);
        CountsAgree(a, b, s);
      }
    }
  }

  /** Some listing of a multiset; sorting it does not depend on which. */
  ghost function Listing(m: multiset<string>): (xs: seq<string>)
    ensures multiset(xs) == m
    decreases |m|
  {
    if m == multiset{} then []
    else
      var x :| x in m;
      [x] + Listing(m - multiset{x})
  }

  ghost function LineOf(m: Meaning): string {
    m.effect + ['|'] + (Join(Sort(Listing(m.actions)), ',') + ['|'] + Join(Sort(Listing(m.resources)), ','))
  }

  lemma LineOfMeaning(s: Statement)
    ensures Canonical(s) == LineOf(MeaningOf(s))
  {
    SortEqualIff(s.action, Listing(multiset(s.action)));
    SortEqualIff(s.resource, Listing(multiset(s.resource)));
  }

  lemma {:induction false} LinesOfMeanings(doc: seq<Statement>, line: Meaning -> string)
    requires forall s: Statement :: line(MeaningOf(s)) == Canonical(s)
    ensures CanonicalAll(doc) == Apply(line, MeaningAll(doc))
  {
    if |doc| > 0 {
      LinesOfMeanings(doc[1..], line);
      assert MeaningAll(doc)[1..] == MeaningAll(doc[1..]);
    }
  }

  lemma MeaningImpliesLines(a: seq<Statement>, b: seq<Statement>)
    requires SameMeaning(a, b)
    ensures multiset(CanonicalAll(a)) == multiset(CanonicalAll(b))
  {
    ghost var line: Meaning -> string := m => LineOf(m);
    forall s: Statement ensures line(MeaningOf(s)) == Canonical(s) { LineOfMeaning(s); }
    LinesOfMeanings(a, line);
    LinesOfMeanings(b, line);
    ApplyPermute(line, MeaningAll(a), MeaningAll(b));
  }

  /** Documents that grant the same always compare equal: Sids and orders never matter. */
  lemma SameMeaningComparesEqual(a: seq<Statement>, b: seq<Statement>)
    requires SameMeaning(a, b)
    ensures EqualPolicies(Some(a), Some(b))
  {
    MeaningImpliesLines(a, b);
    SortEqualIff(CanonicalAll(a), CanonicalAll(b));
  }

  /** On separator-free documents the comparison is exact. */
  lemma PoliciesEqualExact(a: seq<Statement>, b: seq<Statement>)
    requires AllComparable(a, b)
    ensures EqualPolicies(Some(a), Some(b)) <==> SameMeaning(a, b)
  {
    SortEqualIff(CanonicalAll(a), CanonicalAll(b));
    if EqualPolicies(Some(a), Some(b)) { LinesImplyMeaning(a, b); }
    else if SameMeaning(a, b) { MeaningImpliesLines(a, b); }
  }

  /** A document that does not parse is equal to none, not even to itself. */
  lemma UnparsedNeverEqual(a: Document, b: Document)
    ensures EqualPolicies(a, b) ==> a.Some? && b.Some?
  {
  }
}
