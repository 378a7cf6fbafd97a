/**
 String and list facts the controllers rely on: byte order, sorting, joining and splitting, case folding, counting
 separators, fresh names.
 */
module Text {

  // ---- order and sorting -----------------------------------------------------

  /** Go's string order: lexicographic, a proper prefix first. */
  predicate Leq(a: string, b: string) {
    |a| == 0 || (|b| > 0 && (a[0] < b[0] || (a[0] == b[0] && Leq(a[1..], b[1..]))))
  }

  /** The first difference decides; without one the shorter string is smaller. */
  lemma {:induction false} LeqIff(a: string, b: string)
    ensures Leq(a, b) <==> a <= b || exists k | 0 <= k < |a| && k < |b| :: a[..k] == b[..k] && a[k] < b[k]
  {
    if |a| > 0 && |b| > 0 {
      LeqIff(a[1..], b[1..]);
      assert a <= b <==> a[0] == b[0] && a[1..] <= b[1..] by { ConsPrefix(a, b); }
      if a[0] == b[0] {
        if k :| 0 <= k < |a[1..]| && k < |b[1..]| && a[1..][..k] == b[1..][..k] && a[1..][k] < b[1..][k] {
          assert a[..k + 1] == [a[0]] + a[1..][..k] == b[..k + 1] && a[k + 1] < b[k + 1];
        }
        if k :| 0 <= k < |a| && k < |b| && a[..k] == b[..k] && a[k] < b[k] {
          assert a[1..][..k - 1] == a[..k][1..] == b[..k][1..] == b[1..][..k - 1] && a[1..][k - 1] < b[1..][k - 1];
        }
      } else if a[0] < b[0] {
        assert a[..0] == b[..0];
      } else {
        forall k | 0 < k < |a| && k < |b| ensures a[..k] != b[..k] {
          assert a[..k][0] == a[0] && b[..k][0] == b[0];
        }
      }
    }
  }

  lemma ConsPrefix(a: string, b: string)
    requires |a| > 0 && |b| > 0
    ensures a <= b <==> a[0] == b[0] && a[1..] <= b[1..]
  {
    assert a == [a[0]] + a[1..] && b == [b[0]] + b[1..];
    if a <= b {
      assert a == b[..|a|];
      assert a[1..] == b[1..][..|a| - 1];
    }
  }

  lemma {:induction false} LeqReflexive(a: string)
    ensures Leq(a, a)
  {
    if |a| > 0 { LeqReflexive(a[1..]); }
  }

  lemma {:induction false} LeqTotal(a: string, b: string)
    ensures Leq(a, b) || Leq(b, a)
  {
    if |a| > 0 && |b| > 0 && a[0] == b[0] { LeqTotal(a[1..], b[1..]); }
  }

  lemma {:induction false} LeqAntisymmetric(a: string, b: string)
    requires Leq(a, b) && Leq(b, a)
    ensures a == b
  {
    if |a| > 0 {
      LeqAntisymmetric(a[1..], b[1..]);
      assert a == [a[0]] + a[1..] && b == [b[0]] + b[1..];
    }
  }

  lemma {:induction false} LeqTransitive(a: string, b: string, c: string)
    requires Leq(a, b) && Leq(b, c)
    ensures Leq(a, c)
  {
    if |a| > 0 && a[0] == b[0] == c[0] { LeqTransitive(a[1..], b[1..], c[1..]); }
  }

  predicate Sorted(s: seq<string>) {
    forall i, j | 0 <= i < j < |s| :: Leq(s[i], s[j])
  }

  predicate Distinct<T(==)>(s: seq<T>) {
    forall i, j | 0 <= i < j < |s| :: s[i] != s[j]
  }

  /** Inserts one string before the first that is not smaller. */
  function Insert(x: string, s: seq<string>): seq<string> {
    if |s| == 0 || Leq(x, s[0]) then [x] + s else [s[0]] + Insert(x, s[1..])
  }

  /** `sort.Strings` on a copy. */
  function Sort(s: seq<string>): seq<string> {
    if |s| == 0 then [] else Insert(s[0], Sort(s[1..]))
  }

  lemma {:induction false} InsertSorts(x: string, s: seq<string>)
    requires Sorted(s)
    ensures Sorted(Insert(x, s)) && multiset(Insert(x, s)) == multiset{x} + multiset(s)
  {
    if |s| > 0 {
      TailMultiset(s);
      if Leq(x, s[0]) {
        forall j | 0 <= j < |s| ensures Leq(x, s[j]) {
          if j > 0 { LeqTransitive(x, s[0], s[j]); }
        }
      } else {
        var rest := Insert(x, s[1..]);
        InsertSorts(x, s[1..]);
        LeqTotal(x, s[0]);
        forall j | 0 <= j < |rest| ensures Leq(s[0], rest[j]) {
          assert rest[j] in multiset(rest);
          assert rest[j] == x || rest[j] in s[1..];
        }
      }
    }
  }

  lemma {:induction false} SortSorts(s: seq<string>)
    ensures Sorted(Sort(s)) && multiset(Sort(s)) == multiset(s) && |Sort(s)| == |s|
  {
    if |s| > 0 {
      SortSorts(s[1..]);
      InsertSorts(s[0], Sort(s[1..]));
      TailMultiset(s);
    }
    assert |Sort(s)| == |multiset(Sort(s))| && |s| == |multiset(s)|;
  }

  lemma HeadIsLeast(a: seq<string>, x: string)
    requires Sorted(a) && x in multiset(a)
    ensures |a| > 0 && Leq(a[0], x)
  {
    var i :| 0 <= i < |a| && a[i] == x;
    if i == 0 { LeqReflexive(x); }
  }

  lemma TailMultiset<T>(a: seq<T>)
    requires |a| > 0
    ensures multiset(a) == multiset{a[0]} + multiset(a[1..])
  {
    assert a == [a[0]] + a[1..];
  }

  lemma SameHead(a: seq<string>, b: seq<string>)
    requires Sorted(a) && Sorted(b) && multiset(a) == multiset(b) && |a| > 0 && |b| > 0
    ensures a[0] == b[0] && Sorted(a[1..]) && Sorted(b[1..]) && multiset(a[1..]) == multiset(b[1..])
  {
    assert a[0] in multiset(b) && b[0] in multiset(a);
    HeadIsLeast(a, b[0]);
    HeadIsLeast(b, a[0]);
    LeqAntisymmetric(a[0], b[0]);
    TailMultiset(a);
    TailMultiset(b);
    assert multiset(a[1..]) == multiset(a) - multiset{a[0]};
    assert multiset(b[1..]) == multiset(b) - multiset{b[0]};
  }

  /** A multiset has one sorted listing, so comparing sorted copies compares multisets. */
  lemma {:induction false} SortedUnique(a: seq<string>, b: seq<string>)
    requires Sorted(a) && Sorted(b) && multiset(a) == multiset(b)
    ensures a == b
  {
    assert |a| == |multiset(a)| == |b|;
    if |a| > 0 {
      SameHead(a, b);
      SortedUnique(a[1..], b[1..]);
      assert a == [a[0]] + a[1..] && b == [b[0]] + b[1..];
    }
  }

  lemma SortEqualIff(a: seq<string>, b: seq<string>)
    ensures Sort(a) == Sort(b) <==> multiset(a) == multiset(b)
  {
    SortSorts(a);
    SortSorts(b);
    if multiset(a) == multiset(b) { SortedUnique(Sort(a), Sort(b)); }
  }

  lemma SortIdempotent(a: seq<string>)
    ensures Sort(Sort(a)) == Sort(a)
  {
    SortSorts(a);
    SortSorts(Sort(a));
    SortedUnique(Sort(Sort(a)), Sort(a));
  }

  /** The one sorted listing of a set. */
  ghost function SortedSet(keys: set<string>): seq<string>
    decreases |keys|
  {
    if keys == {} then []
    else
      var k :| k in keys;
      Sort([k] + SortedSet(keys - {k}))
  }

  lemma {:induction false} SortedSetListing(keys: set<string>)
    ensures multiset(SortedSet(keys)) == multiset(keys) && Sorted(SortedSet(keys))
    decreases |keys|
  {
    if keys != {} {
      var k :| k in keys && SortedSet(keys) == Sort([k] + SortedSet(keys - {k}));
      SortedSetListing(keys - {k});
      assert multiset(keys) == multiset{k} + multiset(keys - {k});
      SortSorts([k] + SortedSet(keys - {k}));
    }
  }

  lemma SortedSetIs(keys: set<string>)
    ensures Sorted(SortedSet(keys)) && Distinct(SortedSet(keys))
    ensures forall k :: k in SortedSet(keys) <==> k in keys
  {
    var r := SortedSet(keys);
    SortedSetListing(keys);
    CountDistinct(r);
    forall k ensures k in r <==> k in keys { assert k in r <==> k in multiset(r); }
  }

  lemma SortedSetMember(keys: set<string>, i: nat)
    requires i < |SortedSet(keys)|
    ensures SortedSet(keys)[i] in keys
  {
    SortedSetIs(keys);
    assert SortedSet(keys)[i] in SortedSet(keys);
  }

  lemma SortedSetUnique(keys: set<string>, r: seq<string>)
    requires Sorted(r) && Distinct(r) && forall k :: k in r <==> k in keys
    ensures r == SortedSet(keys)
  {
    SortedSetListing(keys);
    DistinctCount(r);
    forall k ensures multiset(r)[k] == multiset(keys)[k] { assert k in r <==> k in multiset(r); }
    SortedUnique(r, SortedSet(keys));
  }

  lemma SortedSetCovers(keys: set<string>)
    ensures SetOf(SortedSet(keys)) == keys && Distinct(SortedSet(keys))
  {
    SortedSetIs(keys);
  }

  /** The sorted listing of a map's keys, as the deterministic-order helpers build it. */
  method SortedKeys(keys: set<string>) returns (r: seq<string>)
    ensures r == SortedSet(keys)
  {
    var rest, listed := keys, [];
    while rest != {}
      invariant rest <= keys && Distinct(listed)
      invariant forall k :: k in listed <==> k in keys - rest
      decreases |rest|
    {
      var k :| k in rest;
      assert k !in listed;
      listed := listed + [k];
      rest := rest - {k};
    }
    r := Sort(listed);
    SortSorts(listed);
    DistinctIsMultiset(listed, r);
    forall k ensures k in r <==> k in keys {
      assert k in r <==> k in multiset(r) <==> k in multiset(listed) <==> k in listed;
    }
    SortedSetUnique(keys, r);
  }

  lemma DistinctCount<T>(s: seq<T>)
    requires Distinct(s)
    ensures forall x :: multiset(s)[x] <= 1
  {
    if |s| > 0 {
      DistinctCount(s[1..]);
      assert s == [s[0]] + s[1..];
      assert s[0] !in s[1..];
    }
  }

  lemma CountDistinct<T>(s: seq<T>)
    requires forall x :: multiset(s)[x] <= 1
    ensures Distinct(s)
  {
    forall i, j | 0 <= i < j < |s| ensures s[i] != s[j] {
      var x := s[i];
      assert multiset(s)[x] <= 1;
      assert s == s[..i] + [s[i]] + s[i + 1..j] + [s[j]] + s[j + 1..];
      assert multiset(s) == multiset(s[..i]) + multiset{s[i]} + multiset(s[i + 1..j]) + multiset{s[j]}
          + multiset(s[j + 1..]);
    }
  }

  lemma DistinctIsMultiset<T>(a: seq<T>, b: seq<T>)
    requires Distinct(a) && multiset(a) == multiset(b)
    ensures Distinct(b)
  {
    DistinctCount(a);
    CountDistinct(b);
  }

  function Apply<A, B>(f: A -> B, xs: seq<A>): seq<B> {
    if |xs| == 0 then [] else [f(xs[0])] + Apply(f, xs[1..])
  }

  lemma {:induction false} ApplyConcat<A, B>(f: A -> B, xs: seq<A>, ys: seq<A>)
    ensures Apply(f, xs + ys) == Apply(f, xs) + Apply(f, ys)
  {
    if |xs| == 0 {
      assert xs + ys == ys;
    } else {
      assert (xs + ys)[1..] == xs[1..] + ys;
      ApplyConcat(f, xs[1..], ys);
    }
  }

  /** Taking one occurrence out of the middle of a list. */
  lemma Extract<T>(b: seq<T>, k: nat)
    requires k < |b|
    ensures b == b[..k] + ([b[k]] + b[k + 1..])
    ensures multiset(b) == multiset{b[k]} + multiset(b[..k] + b[k + 1..])
  {
    assert b == b[..k] + ([b[k]] + b[k + 1..]);
  }

  lemma ApplyExtract<A, B>(f: A -> B, b: seq<A>, k: nat)
    requires k < |b|
    ensures multiset(Apply(f, b)) == multiset{f(b[k])} + multiset(Apply(f, b[..k] + b[k + 1..]))
  {
    var left, right := b[..k], b[k + 1..];
    Extract(b, k);
    ApplyConcat(f, left, right);
    ApplyConcat(f, left, [b[k]] + right);
    ApplyConcat(f, [b[k]], right);
    Middle(Apply(f, left), f(b[k]), Apply(f, right));
  }

  lemma Middle<T>(left: seq<T>, x: T, right: seq<T>)
    ensures multiset(left + ([x] + right)) == multiset{x} + multiset(left + right)
  {
  }

  lemma SameRest<T>(a: seq<T>, b: seq<T>, k: nat)
    requires |a| > 0 && k < |b| && b[k] == a[0] && multiset(a) == multiset(b)
    ensures multiset(a[1..]) == multiset(b[..k] + b[k + 1..])
  {
    TailMultiset(a);
    Extract(b, k);
    assert multiset(a[1..]) == multiset(a) - multiset{a[0]};
    assert multiset(b[..k] + b[k + 1..]) == multiset(b) - multiset{b[k]};
  }

  /** Mapping a permuted list permutes the results. */
  lemma {:induction false} ApplyPermute<A, B>(f: A -> B, a: seq<A>, b: seq<A>)
    requires multiset(a) == multiset(b)
    ensures multiset(Apply(f, a)) == multiset(Apply(f, b))
  {
    assert |a| == |multiset(a)| == |b|;
    if |a| > 0 {
      assert a[0] in multiset(b);
      var k :| 0 <= k < |b| && b[k] == a[0];
      SameRest(a, b, k);
      ApplyPermute(f, a[1..], b[..k] + b[k + 1..]);
      ApplyExtract(f, b, k);
    }
  }

  /** First occurrences, in order. */
  function Dedupe<T(==)>(s: seq<T>): seq<T> {
    var k := |s| - 1;
    if k < 0 then [] else if s[k] in s[..k] then Dedupe(s[..k]) else Dedupe(s[..k]) + [s[k]]
  }

  lemma {:induction false} DedupeIsSet<T>(s: seq<T>)
    ensures Distinct(Dedupe(s)) && forall x :: x in Dedupe(s) <==> x in s
  {
    var k := |s| - 1;
    if k >= 0 {
      DedupeIsSet(s[..k]);
      assert s == s[..k] + [s[k]];
    }
  }

  function SetOf<T>(s: seq<T>): set<T> {
    set x | x in s
  }

  lemma SubsetSize<T>(a: set<T>, b: set<T>)
    requires a <= b
    ensures |a| <= |b| && (|a| == |b| <==> a == b)
  {
    assert b == a + (b - a);
    assert |b| == |a| + |b - a|;
  }

  lemma {:induction false} DistinctSize<T>(s: seq<T>)
    ensures |SetOf(s)| <= |s| && (|SetOf(s)| == |s| <==> Distinct(s))
  {
    if |s| > 0 {
      var x, rest := s[0], s[1..];
      DistinctSize(rest);
      assert s == [x] + rest;
      assert SetOf(s) == {x} + SetOf(rest);
      if x in rest {
        assert SetOf(s) == SetOf(rest);
        var j :| 0 <= j < |rest| && rest[j] == x;
        assert s[0] == s[j + 1];
      } else {
        DistinctCons(x, rest);
      }
    }
  }

  lemma DistinctCons<T>(x: T, rest: seq<T>)
    requires x !in rest
    ensures Distinct([x] + rest) <==> Distinct(rest)
  {
    var s := [x] + rest;
    if Distinct(rest) {
      forall i, j | 0 <= i < j < |s| ensures s[i] != s[j] { assert s[j] == rest[j - 1]; }
    } else {
      var i, j :| 0 <= i < j < |rest| && rest[i] == rest[j];
      assert s[i + 1] == s[j + 1];
    }
  }

  /** Every occurrence of `x` taken out. */
  function Without<T(==)>(s: seq<T>, x: T): seq<T> {
    if |s| == 0 then [] else (if s[0] == x then [] else [s[0]]) + Without(s[1..], x)
  }

  /** A string outside a finite set. */
  ghost function FreshKey(keys: set<string>): (k: string)
    ensures k !in keys
  {
    SomeKeyOutside(keys);
    var k: string :| k !in keys;
    k
  }

  lemma {:induction false} LengthBound(keys: set<string>) returns (n: nat)
    ensures forall k | k in keys :: |k| <= n
  {
    if keys == {} { return 0; }
    var k :| k in keys;
    var m := LengthBound(keys - {k});
    n := if |k| > m then |k| else m;
  }

  lemma SomeKeyOutside(keys: set<string>)
    ensures exists k: string :: k !in keys
  {
    var n := LengthBound(keys);
    var k: string := seq(n + 1, _ => 'x');
    assert k !in keys;
  }

  /** `n` strings outside a finite set. */
  ghost function FreshKeys(keys: set<string>, n: nat): (r: set<string>)
    ensures r !! keys && |r| == n
    decreases n
  {
    if n == 0 then {}
    else
      var r := FreshKeys(keys, n - 1);
      r + {FreshKey(keys + r)}
  }

  // ---- characters --------------------------------------------------------------

  /** No occurrence of `c` in `s`. */
  predicate Free(s: string, c: char) {
    forall i | 0 <= i < |s| :: s[i] != c
  }

  function LowerChar(c: char): char {
    if 'A' <= c <= 'Z' then c - 'A' + 'a' else c
  }

  /** `strings.ToLower` on ASCII text. */
  function ToLower(s: string): (r: string)
    ensures |r| == |s| && forall i | 0 <= i < |s| :: r[i] == LowerChar(s[i])
  {
    if |s| == 0 then "" else [LowerChar(s[0])] + ToLower(s[1..])
  }

  /** Capital letters move thirty-two places on, everything else stays. */
  lemma ToLowerIs(s: string, i: nat)
    requires i < |s|
    ensures ToLower(s)[i] as int == s[i] as int + if 65 <= s[i] as int <= 90 then 32 else 0
  {
    hide LowerChar;
    LowerCharIs(s[i]);
  }

  lemma LowerCharIs(c: char)
    ensures LowerChar(c) as int == c as int + if 65 <= c as int <= 90 then 32 else 0
  {
  }

  lemma ToLowerFree(s: string, c: char)
    requires Free(s, c) && !('a' <= c <= 'z')
    ensures Free(ToLower(s), c)
  {
  }

  predicate HasSuffix(s: string, suffix: string) {
    |suffix| <= |s| && s[|s| - |suffix|..] == suffix
  }

  // ---- joining -----------------------------------------------------------------

  /** `strings.Join` with a one-character separator. */
  function Join(parts: seq<string>, sep: char): string {
    if |parts| == 0 then ""
    else if |parts| == 1 then parts[0]
    else parts[0] + [sep] + Join(parts[1..], sep)
  }

  /** The text before the first `c`, or all of it. */
  function Before(s: string, c: char): (r: string)
    ensures Free(r, c) && r <= s && (Free(s, c) ==> r == s)
  {
    if |s| == 0 || s[0] == c then "" else [s[0]] + Before(s[1..], c)
  }

  lemma {:induction false} BeforeAppend(s: string, c: char, rest: string)
    requires Free(s, c)
    ensures Before(s + [c] + rest, c) == s
  {
    if |s| > 0 {
      assert (s + [c] + rest)[1..] == s[1..] + [c] + rest;
      BeforeAppend(s[1..], c, rest);
    }
  }

  /** A separator-free head determines where the text splits. */
  lemma CutUnique(a: string, b: string, x: string, y: string, c: char)
    requires Free(a, c) && Free(b, c) && a + [c] + x == b + [c] + y
    ensures a == b && x == y
  {
    BeforeAppend(a, c, x);
    BeforeAppend(b, c, y);
    assert x == (a + [c] + x)[|a| + 1..];
    assert y == (b + [c] + y)[|b| + 1..];
  }

  predicate Parts(parts: seq<string>, sep: char) {
    forall i | 0 <= i < |parts| :: |parts[i]| > 0 && Free(parts[i], sep)
  }

  /** Joining is injective on lists of non-empty separator-free parts. */
  lemma {:induction false} JoinInjective(a: seq<string>, b: seq<string>, sep: char)
    requires Parts(a, sep) && Parts(b, sep) && Join(a, sep) == Join(b, sep)
    ensures a == b
  {
    if |a| >= 1 && |b| >= 1 {
      if |a| > 1 { BeforeAppend(a[0], sep, Join(a[1..], sep)); }
      if |b| > 1 { BeforeAppend(b[0], sep, Join(b[1..], sep)); }
      assert Before(Join(a, sep), sep) == a[0] && Before(Join(b, sep), sep) == b[0];
      assert |Join(a, sep)| > |a[0]| <==> |a| > 1;
      assert |Join(b, sep)| > |b[0]| <==> |b| > 1;
      if |a| > 1 {
        CutUnique(a[0], b[0], Join(a[1..], sep), Join(b[1..], sep), sep);
        JoinInjective(a[1..], b[1..], sep);
        assert a == [a[0]] + a[1..] && b == [b[0]] + b[1..];
      }
    }
  }

  lemma {:induction false} JoinFree(parts: seq<string>, sep: char, c: char)
    requires c != sep && forall i | 0 <= i < |parts| :: Free(parts[i], c)
    ensures Free(Join(parts, sep), c)
  {
    if |parts| > 1 { JoinFree(parts[1..], sep, c); }
  }

  // ---- pipes, the separator of composite keys ---------------------------------

  function Pipes(s: string): nat {
    if |s| == 0 then 0 else Pipes(s[1..]) + if s[0] == '|' then 1 else 0
  }

  lemma {:induction false} PipesConcat(a: string, b: string)
    ensures Pipes(a + b) == Pipes(a) + Pipes(b)
  {
    if |a| == 0 {
      assert a + b == b;
    } else {
      assert (a + b)[1..] == a[1..] + b;
      PipesConcat(a[1..], b);
    }
  }

  lemma {:induction false} FreeHasNoPipes(s: string)
    ensures Free(s, '|') <==> Pipes(s) == 0
  {
    if |s| > 0 {
      FreeHasNoPipes(s[1..]);
      assert forall i | 0 < i < |s| :: s[i] == s[1..][i - 1];
      assert forall i | 0 <= i < |s[1..]| :: s[1..][i] == s[i + 1];
    }
  }

  lemma PipesJoined(a: string, b: string)
    ensures Pipes(a + ['|'] + b) == Pipes(a) + 1 + Pipes(b)
  {
    PipesConcat(a + ['|'], b);
    PipesConcat(a, ['|']);
    assert ['|'][1..] == [];
  }

  /** The first pipe of a string that has one. */
  lemma {:induction false} FirstPipe(s: string) returns (a: string, b: string)
    requires !Free(s, '|')
    ensures s == a + ['|'] + b && Free(a, '|')
  {
    if s[0] == '|' { return "", s[1..]; }
    assert !Free(s[1..], '|') by {
      var i :| 0 <= i < |s| && s[i] == '|';
      assert s[1..][i - 1] == '|';
    }
    a, b := FirstPipe(s[1..]);
    a := [s[0]] + a;
  }
}
