/**
 Ordering Kubernetes version strings by their numeric components, zero-padded, whatever pre-release or build text is
 written behind them.
 */
module Versions {
  import opened Text
  import opened Itoa

  // ---- from text to components ----------------------------------------------------------

  function TrimV(v: string): string {
    if |v| > 0 && v[0] == 'v' then v[1..] else v
  }

  /** `strings.Split` with a one-character separator: never empty. */
  function SplitOn(s: string, sep: char): seq<string> {
    var head := Before(s, sep);
    if |head| == |s| then [s] else [head] + SplitOn(s[|head| + 1..], sep)
  }

  function DigitRun(s: string): (r: string)
    ensures AllDigits(r) && r <= s && (|r| < |s| ==> !('0' <= s[|r|] <= '9'))
  {
    if |s| == 0 || !('0' <= s[0] <= '9') then ""
    else
      var rest := DigitRun(s[1..]);
      assert s[1..][..|rest|] == s[1..|rest| + 1];
      s[..|rest| + 1]
  }

  /** The number at the front: zero without digits, the largest 64-bit integer when it does not fit. */
  function LeadingInt(s: string): nat {
    var n := Value(DigitRun(s));
    if n > MAX then MAX else n
  }

  function Numbers(parts: seq<string>): seq<nat> {
    if |parts| == 0 then [] else [LeadingInt(parts[0])] + Numbers(parts[1..])
  }

  lemma {:induction false} NumbersConcat(xs: seq<string>, ys: seq<string>)
    ensures Numbers(xs + ys) == Numbers(xs) + Numbers(ys)
  {
    if |xs| == 0 {
      assert xs + ys == ys;
    } else {
      assert (xs + ys)[1..] == xs[1..] + ys;
      NumbersConcat(xs[1..], ys);
    }
  }

  lemma NumbersStep(parts: seq<string>, i: nat)
    requires i < |parts|
    ensures Numbers(parts[..i + 1]) == Numbers(parts[..i]) + [LeadingInt(parts[i])]
  {
    assert parts[..i + 1] == parts[..i] + [parts[i]];
    NumbersConcat(parts[..i], [parts[i]]);
  }

  function Components(v: string): seq<nat> {
    Numbers(SplitOn(Before(TrimV(v), '+'), '.'))
  }

  method ParseLeadingInt(s: string) returns (n: nat)
    ensures n == LeadingInt(s)
  {
    var end := 0;
    while end < |s| && '0' <= s[end] <= '9'
      invariant end <= |s| && AllDigits(s[..end])
    {
      end := end + 1;
    }
    RunUnique(s, end);
    if end == 0 { return 0; }
    n := Value(s[..end]);
    if n > MAX { n := MAX; }
  }

  lemma {:induction false} RunUnique(s: string, end: nat)
    requires end <= |s| && AllDigits(s[..end]) && (end < |s| ==> !('0' <= s[end] <= '9'))
    ensures DigitRun(s) == s[..end]
  {
    if end > 0 {
      assert s[..end][0] == s[0];
      assert s[1..][..end - 1] == s[..end][1..];
      RunUnique(s[1..], end - 1);
    }
  }

  method SplitVersion(version: string) returns (out: seq<nat>)
    ensures out == Components(version) && |out| > 0
  {
    var v := TrimV(version);
    v := Before(v, '+');
    var parts := SplitOn(v, '.');
    out := [];
    for i := 0 to |parts|
      invariant out == Numbers(parts[..i]) && |out| == i
    {
      var n := ParseLeadingInt(parts[i]);
      NumbersStep(parts, i);
      out := out + [n];
    }
    assert parts[..|parts|] == parts;
  }

  // ---- the order --------------------------------------------------------------------------

  function At(a: seq<nat>, i: nat): nat {
    if i < |a| then a[i] else 0
  }

  predicate NewerAt(a: seq<nat>, b: seq<nat>, i: nat) {
    At(a, i) > At(b, i) && forall j | 0 <= j < i :: At(a, j) == At(b, j)
  }

  /** The first difference, missing components counting as zero, is in favour of `a`. */
  predicate Newer(a: seq<nat>, b: seq<nat>) {
    exists i | 0 <= i < |a| :: NewerAt(a, b, i)
  }

  /** No component differs. */
  predicate Ties(a: seq<nat>, b: seq<nat>) {
    forall i | 0 <= i < |a| + |b| :: At(a, i) == At(b, i)
  }

  /** The first `i` components agree. */
  predicate Agree(a: seq<nat>, b: seq<nat>, i: nat) {
    forall j | 0 <= j < i :: At(a, j) == At(b, j)
  }

  /** The first difference decides; without one neither is newer. */
  lemma FirstDifferenceDecides(a: seq<nat>, b: seq<nat>, i: nat)
    requires Agree(a, b, i)
    ensures At(a, i) != At(b, i) ==> Newer(a, b) == (At(a, i) > At(b, i))
    ensures At(a, i) == At(b, i) ==> Agree(a, b, i + 1)
    ensures i >= |a| && i >= |b| ==> !Newer(a, b)
  {
    if At(a, i) > At(b, i) { assert NewerAt(a, b, i); }
  }

  method VersionNewer(a: string, b: string) returns (newer: bool)
    ensures newer == Newer(Components(a), Components(b))
  {
    var pa := SplitVersion(a);
    var pb := SplitVersion(b);
    newer := FirstIsNewer(pa, pb);
  }

  /** The comparing loop. */
  method FirstIsNewer(pa: seq<nat>, pb: seq<nat>) returns (newer: bool)
    ensures newer == Newer(pa, pb)
  {
    var i := 0;
    while i < |pa| || i < |pb|
      invariant Agree(pa, pb, i)
      decreases |pa| + |pb| - i
    {
      var x, y := At(pa, i), At(pb, i);
      FirstDifferenceDecides(pa, pb, i);
      if x != y { return x > y; }
      i := i + 1;
    }
    FirstDifferenceDecides(pa, pb, i);
    return false;
  }

  lemma OrderIsStrict(a: seq<nat>, b: seq<nat>)
    ensures !Newer(a, a)
    ensures Newer(a, b) ==> !Newer(b, a)
  {
    if Newer(a, b) {
      var i :| 0 <= i < |a| && NewerAt(a, b, i);
      forall j | 0 <= j < |b| ensures !NewerAt(b, a, j) {
        assert j < i ==> At(a, j) == At(b, j);
      }
    }
  }

  lemma NewerTransitive(a: seq<nat>, b: seq<nat>, c: seq<nat>)
    requires Newer(a, b) && Newer(b, c)
    ensures Newer(a, c)
  {
    var i :| 0 <= i < |a| && NewerAt(a, b, i);
    var j :| 0 <= j < |b| && NewerAt(b, c, j);
    var k := if i < j then i else j;
    assert forall m | 0 <= m < k :: At(a, m) == At(b, m) && At(b, m) == At(c, m);
    assert NewerAt(a, c, k);
  }

  lemma FirstDifference(a: seq<nat>, b: seq<nat>, i: nat)
    requires At(a, i) != At(b, i)
    ensures Newer(a, b) || Newer(b, a)
    decreases i
  {
    if j :| 0 <= j < i && At(a, j) != At(b, j) {
      FirstDifference(a, b, j);
    } else {
      assert NewerAt(a, b, i) || NewerAt(b, a, i);
    }
  }

  /** Exactly one of the three relations holds. */
  lemma Trichotomy(a: seq<nat>, b: seq<nat>)
    ensures Newer(a, b) || Newer(b, a) || Ties(a, b)
    ensures !(Newer(a, b) && Newer(b, a)) && !(Newer(a, b) && Ties(a, b)) && !(Newer(b, a) && Ties(a, b))
  {
    OrderIsStrict(a, b);
    if !Ties(a, b) {
      var i :| 0 <= i < |a| + |b| && At(a, i) != At(b, i);
      FirstDifference(a, b, i);
    }
  }

  /** Dropping trailing zeros. */
  function Trim(a: seq<nat>): (r: seq<nat>)
    ensures r <= a && (|r| > 0 ==> r[|r| - 1] != 0)
  {
    if |a| > 0 && a[|a| - 1] == 0 then Trim(a[..|a| - 1]) else a
  }

  lemma {:induction false} TrimKeeps(a: seq<nat>, i: nat)
    ensures At(Trim(a), i) == At(a, i)
  {
    if |a| > 0 && a[|a| - 1] == 0 { TrimKeeps(a[..|a| - 1], i); }
  }

  lemma NotLonger(s: seq<nat>, t: seq<nat>)
    requires (forall i: nat :: At(s, i) == At(t, i)) && (|s| > 0 ==> s[|s| - 1] != 0)
    ensures |s| <= |t|
  {
    if |s| > 0 { assert At(s, |s| - 1) == At(t, |s| - 1); }
  }

  /** Ties are exactly equality up to trailing zeros, so being tied is an equivalence. */
  lemma TiesAreTrailingZeros(a: seq<nat>, b: seq<nat>)
    ensures Ties(a, b) <==> Trim(a) == Trim(b)
  {
    var s, t := Trim(a), Trim(b);
    forall i: nat ensures At(s, i) == At(a, i) && At(t, i) == At(b, i) {
      TrimKeeps(a, i);
      TrimKeeps(b, i);
    }
    if s == t {
      assert forall i: nat :: At(a, i) == At(s, i) == At(t, i) == At(b, i);
    }
    if Ties(a, b) {
      forall i: nat ensures At(s, i) == At(t, i) {
        assert i < |a| + |b| ==> At(a, i) == At(b, i);
        assert At(s, i) == At(a, i) && At(t, i) == At(b, i);
      }
      NotLonger(s, t);
      NotLonger(t, s);
      forall i | 0 <= i < |s| ensures |s| == |t| && s[i] == t[i] {
        assert At(s, i) == At(t, i);
      }
    }
  }

  // ---- what the text notation means ---------------------------------------------------------

  function Printed(ns: seq<nat>): seq<string> {
    if |ns| == 0 then [] else [Decimal(ns[0])] + Printed(ns[1..])
  }

  function Dotted(ns: seq<nat>): string {
    Join(Printed(ns), '.')
  }

  lemma SplitStep(head: string, rest: string, sep: char)
    requires Free(head, sep)
    ensures SplitOn(head + [sep] + rest, sep) == [head] + SplitOn(rest, sep)
  {
    BeforeAppend(head, sep, rest);
    assert (head + [sep] + rest)[|head| + 1..] == rest;
  }

  lemma {:induction false} SplitJoin(parts: seq<string>, sep: char)
    requires |parts| > 0 && forall i | 0 <= i < |parts| :: Free(parts[i], sep)
    ensures SplitOn(Join(parts, sep), sep) == parts
  {
    if |parts| > 1 {
      SplitStep(parts[0], Join(parts[1..], sep), sep);
      SplitJoin(parts[1..], sep);
    }
  }

  lemma PrintedComponent(n: nat)
    requires n <= MAX
    ensures LeadingInt(Decimal(n)) == n && AllDigits(Decimal(n)) && |Decimal(n)| > 0
  {
    DigitsRead(n);
    EdgesPrint();
    RunUnique(Decimal(n), |Decimal(n)|);
    assert Decimal(n)[..|Decimal(n)|] == Decimal(n);
  }

  lemma {:induction false} PrintedComponents(ns: seq<nat>, parts: seq<string>)
    requires forall i | 0 <= i < |ns| :: ns[i] <= MAX
    requires parts == Printed(ns)
    ensures |parts| == |ns| && Numbers(parts) == ns
    ensures forall i | 0 <= i < |parts| :: AllDigits(parts[i]) && |parts[i]| > 0
  {
    if |ns| > 0 {
      PrintedComponents(ns[1..], parts[1..]);
      PrintedComponent(ns[0]);
      assert parts[1..] == Printed(ns[1..]);
    }
  }

  lemma DottedShape(ns: seq<nat>, parts: seq<string>)
    requires |ns| > 0 && forall i | 0 <= i < |ns| :: ns[i] <= MAX
    requires parts == Printed(ns)
    ensures |parts| == |ns| && Numbers(parts) == ns && SplitOn(Dotted(ns), '.') == parts
    ensures Free(Dotted(ns), '+') && Free(Dotted(ns), 'v')
    ensures forall i | 0 <= i < |parts| :: AllDigits(parts[i]) && |parts[i]| > 0
  {
    PrintedComponents(ns, parts);
    SplitJoin(parts, '.');
    JoinFree(parts, '.', '+');
    JoinFree(parts, '.', 'v');
  }

  /** A core without `v` and `+` is what remains of each notation. */
  lemma CoreOf(core: string, build: string)
    requires Free(core, '+') && Free(core, 'v')
    ensures Before(TrimV(core), '+') == core && Before(TrimV("v" + core), '+') == core
    ensures Before(TrimV("v" + core + "+" + build), '+') == core
  {
    assert TrimV("v" + core) == core;
    assert TrimV("v" + core + "+" + build) == core + ['+'] + build;
    BeforeAppend(core, '+', build);
  }

  /** Writing components out, with or without `v` and with any build metadata, and parsing gives them back. */
  lemma ParsesBack(ns: seq<nat>, build: string)
    requires |ns| > 0 && forall i | 0 <= i < |ns| :: ns[i] <= MAX
    ensures Components(Dotted(ns)) == ns
    ensures Components("v" + Dotted(ns)) == ns
    ensures Components("v" + Dotted(ns) + "+" + build) == ns
  {
    DottedShape(ns, Printed(ns));
    CoreOf(Dotted(ns), build);
  }

  /** Build metadata never takes part in the comparison. */
  lemma BuildIgnored(v: string, build: string)
    requires Free(v, '+')
    ensures Components(v + "+" + build) == Components(v)
  {
    var t := TrimV(v);
    if |v| > 0 && v[0] == 'v' {
      assert TrimV(v + "+" + build) == t + ['+'] + build;
    } else {
      assert TrimV(v + "+" + build) == t + ['+'] + build;
    }
    BeforeAppend(t, '+', build);
  }

  /** Parts free of separators parse part by part. */
  lemma PartsParse(parts: seq<string>)
    requires |parts| > 0 && |parts[0]| > 0 && parts[0][0] != 'v'
    requires forall i | 0 <= i < |parts| :: Free(parts[i], '.') && Free(parts[i], '+')
    ensures Components(Join(parts, '.')) == Numbers(parts)
  {
    SplitJoin(parts, '.');
    JoinFree(parts, '.', '+');
    JoinHead(parts, '.');
  }

  lemma JoinHead(parts: seq<string>, sep: char)
    requires |parts| > 0 && |parts[0]| > 0
    ensures |Join(parts, sep)| > 0 && Join(parts, sep)[0] == parts[0][0]
  {
  }

  /** The last part extended by a tail that starts with no digit. */
  function Tailed(parts: seq<string>, tail: string): seq<string>
    requires |parts| > 0
  {
    parts[..|parts| - 1] + [parts[|parts| - 1] + tail]
  }

  predicate DigitParts(parts: seq<string>) {
    forall i | 0 <= i < |parts| :: AllDigits(parts[i]) && |parts[i]| > 0
  }

  lemma TailedShape(parts: seq<string>, tail: string)
    requires |parts| > 0 && DigitParts(parts) && Free(tail, '.') && Free(tail, '+')
    requires |tail| > 0 && !('0' <= tail[0] <= '9')
    ensures var t := Tailed(parts, tail);
            && |t[0]| > 0 && t[0][0] != 'v' && (forall i | 0 <= i < |t| :: Free(t[i], '.') && Free(t[i], '+'))
            && Numbers(t) == Numbers(parts) && Join(t, '.') == Join(parts, '.') + tail
  {
    SameLeading(parts, tail);
    JoinLast(parts, tail, '.');
    var t := Tailed(parts, tail);
    forall i | 0 <= i < |t| ensures Free(t[i], '.') && Free(t[i], '+') {
      assert AllDigits(parts[i]);
    }
    assert '0' <= parts[0][0] <= '9' && t[0][0] == parts[0][0];
  }

  /** A suffix of numbers is newer than nothing exactly when one of them is positive, and never older. */
  lemma AppendedIsNewerIff(ns: seq<nat>, more: seq<nat>)
    ensures Newer(ns + more, ns) <==> exists i | 0 <= i < |more| :: more[i] > 0
    ensures !Newer(ns, ns + more)
  {
    var all := ns + more;
    forall i: nat ensures At(all, i) >= At(ns, i) && (i < |more| ==> At(all, |ns| + i) == more[i]) {
    }
    if k :| 0 <= k < |more| && more[k] > 0 {
      Trichotomy(all, ns);
      assert At(all, |ns| + k) != At(ns, |ns| + k);
    }
    if Newer(all, ns) {
      var i :| 0 <= i < |all| && NewerAt(all, ns, i);
      assert more[i - |ns|] > 0;
    }
  }

  lemma {:induction false} NumbersAt(parts: seq<string>)
    ensures |Numbers(parts)| == |parts| && forall i | 0 <= i < |parts| :: Numbers(parts)[i] == LeadingInt(parts[i])
  {
    if |parts| > 0 { NumbersAt(parts[1..]); }
  }

  /** Every identifier of a pre-release tail after its first dot is read as one more component. */
  lemma PreReleaseParses(parts: seq<string>, ids: seq<string>)
    requires |parts| > 0 && DigitParts(parts) && |ids| > 0 && forall i | 0 <= i < |ids| ::
        Free(ids[i], '.') && Free(ids[i], '+')
    ensures Components(Join(parts, '.') + ("-" + Join(ids, '.'))) == Numbers(parts) + Numbers(ids[1..])
  {
    hide Components, Numbers, LeadingInt;
    var tail := "-" + ids[0];
    var t := Tailed(parts, tail);
    TailedShape(parts, tail);
    TailText(Join(parts, '.'), t, ids);
    PartsParse(t + ids[1..]);
    NumbersConcat(t, ids[1..]);
  }

  lemma TailText(text: string, t: seq<string>, ids: seq<string>)
    requires |t| > 0 && |ids| > 0 && Join(t, '.') == text + ("-" + ids[0])
    ensures Join(t + ids[1..], '.') == text + ("-" + Join(ids, '.'))
  {
    if |ids| == 1 {
      assert t + ids[1..] == t;
    } else {
      var rest := Join(ids[1..], '.');
      assert Join(ids, '.') == ids[0] + ['.'] + rest;
      JoinConcat(t, ids[1..], '.');
      hide Join;
      Regroup(text, ids[0], rest);
    }
  }

  lemma Regroup(text: string, a: string, b: string)
    ensures text + ("-" + a) + ['.'] + b == text + ("-" + (a + ['.'] + b))
  {
    var l, r := text + ("-" + a) + ['.'] + b, text + ("-" + (a + ['.'] + b));
    assert forall i | 0 <= i < |l| :: l[i] == r[i];
  }

  /**
   A pre-release is never older than its release, unlike item 11 of Semantic Versioning 2.0.0 asks: it is newer exactly
   when an identifier after the first dot starts with a positive number, and tied with it otherwise.
   */
  lemma PreReleaseNeverOlder(ns: seq<nat>, ids: seq<string>)
    requires |ns| > 0 && forall i | 0 <= i < |ns| :: ns[i] <= MAX
    requires |ids| > 0 && forall i | 0 <= i < |ids| :: Free(ids[i], '.') && Free(ids[i], '+')
    ensures var c := Components(Dotted(ns) + ("-" + Join(ids, '.')));
            && c == ns + Numbers(ids[1..])
            && (Newer(c, ns) <==> exists i | 1 <= i < |ids| :: LeadingInt(ids[i]) > 0)
            && (Ties(c, ns) <==> forall i | 1 <= i < |ids| :: LeadingInt(ids[i]) == 0) && !Newer(ns, c)
  {
    hide Components, Numbers, LeadingInt, Join, Decimal, SplitOn, Newer, Ties;
    var parts := Printed(ns);
    var rest := ids[1..];
    DottedShape(ns, parts);
    PreReleaseParses(parts, ids);
    NumbersAt(rest);
    AppendedIsNewerIff(ns, Numbers(rest));
    Trichotomy(ns + Numbers(rest), ns);
    forall i | 1 <= i < |ids| ensures LeadingInt(ids[i]) == Numbers(rest)[i - 1] {
      assert ids[i] == rest[i - 1];
    }
    forall i | 0 <= i < |rest| ensures Numbers(rest)[i] == LeadingInt(ids[i + 1]) {
    }
  }

  lemma {:induction false} JoinConcat(xs: seq<string>, ys: seq<string>, sep: char)
    requires |xs| > 0 && |ys| > 0
    ensures Join(xs + ys, sep) == Join(xs, sep) + [sep] + Join(ys, sep)
  {
    assert (xs + ys)[1..] == xs[1..] + ys;
    if |xs| > 1 { JoinConcat(xs[1..], ys, sep); }
  }

  lemma JoinLast(parts: seq<string>, tail: string, sep: char)
    requires |parts| > 0
    ensures Join(Tailed(parts, tail), sep) == Join(parts, sep) + tail
  {
    var k := |parts| - 1;
    assert parts == parts[..k] + [parts[k]];
    if k > 0 {
      JoinConcat(parts[..k], [parts[k]], sep);
      JoinConcat(parts[..k], [parts[k] + tail], sep);
    }
  }

  lemma LeadingTail(last: string, tail: string)
    requires AllDigits(last) && |tail| > 0 && !('0' <= tail[0] <= '9')
    ensures LeadingInt(last + tail) == LeadingInt(last)
  {
    assert last[..|last|] == last && (last + tail)[..|last|] == last;
    RunUnique(last, |last|);
    RunUnique(last + tail, |last|);
  }

  lemma SameLeading(parts: seq<string>, tail: string)
    requires |parts| > 0 && forall i | 0 <= i < |parts| :: AllDigits(parts[i])
    requires |tail| > 0 && !('0' <= tail[0] <= '9')
    ensures Numbers(Tailed(parts, tail)) == Numbers(parts)
  {
    var k := |parts| - 1;
    var xs, x := parts[..k], parts[k];
    var y := x + tail;
    LeadingTail(x, tail);
    SameLast(xs, x, y);
    LastSplit(parts);
  }

  lemma LastSplit<T>(xs: seq<T>)
    requires |xs| > 0
    ensures xs == xs[..|xs| - 1] + [xs[|xs| - 1]]
  {
  }

  lemma SameLast(xs: seq<string>, x: string, y: string)
    requires LeadingInt(x) == LeadingInt(y)
    ensures Numbers(xs + [x]) == Numbers(xs + [y])
  {
    NumbersConcat(xs, [x]);
    NumbersConcat(xs, [y]);
  }
}
