/**
 When two declarations share a retry budget: the text that is fingerprinted identifies domains, mode and certificate
 identity.
 */
module CdnBudget {
  import opened Wrappers
  import opened Text
  import opened CdnSsl
  import opened CdnReconciler

  /** Names without the two separators. */
  predicate Plain(names: seq<string>) {
    Parts(names, ',') && forall i | 0 <= i < |names| :: Free(names[i], '|')
  }

  /**
   Domains and SANs are plain, the expiry day has no pipe; only custom mode has a desired certificate, whose subject
   may be any text.
   */
  predicate PlainDeclaration(d: Declaration) {
    && Plain(d.settings.domains.GetOr([]))
    && (d.desired.Some? ==> d.mode.Custom? && Plain(d.desired.value.domains) && Free(d.desired.value.expiryDay, '|'))
  }

  lemma LastCut(a: string, b: string, x: string, y: string, c: char)
    requires Free(y, c) && a + [c] + x == b + [c] + y
    ensures |a| <= |b|
  {
    var l, r := a + [c] + x, b + [c] + y;
    forall j | |b| < j < |r| ensures r[j] != c {
      assert r[j] == y[j - |b| - 1];
    }
    assert l[|a|] == c;
  }

  /** A separator-free tail determines where the text splits. */
  lemma CutLastUnique(a: string, b: string, x: string, y: string, c: char)
    requires Free(x, c) && Free(y, c) && a + [c] + x == b + [c] + y
    ensures a == b && x == y
  {
    var l, r := a + [c] + x, b + [c] + y;
    LastCut(a, b, x, y, c);
    LastCut(b, a, y, x, c);
    assert a == l[..|a|] && b == r[..|b|];
    assert x == l[|a| + 1..] && y == r[|b| + 1..];
  }

  lemma FieldsExact(c1: string, l1: string, e1: string, c2: string, l2: string, e2: string)
    requires Free(l1, '|') && Free(l2, '|') && Free(e1, '|') && Free(e2, '|')
    requires "|" + c1 + "|" + l1 + "|" + e1 == "|" + c2 + "|" + l2 + "|" + e2
    ensures c1 == c2 && l1 == l2 && e1 == e2
  {
    CutLastUnique("|" + c1 + "|" + l1, "|" + c2 + "|" + l2, e1, e2, '|');
    CutLastUnique("|" + c1, "|" + c2, l1, l2, '|');
    assert c1 == ("|" + c1)[1..] && c2 == ("|" + c2)[1..];
  }

  lemma IdentityTextExact(a: Option<Identity>, b: Option<Identity>)
    requires a.Some? ==> Plain(a.value.domains) && Free(a.value.expiryDay, '|')
    requires b.Some? ==> Plain(b.value.domains) && Free(b.value.expiryDay, '|')
    ensures IdentityText(a) == IdentityText(b) <==> a == b
  {
    if a.Some? && b.Some? && IdentityText(a) == IdentityText(b) {
      var x, y := a.value, b.value;
      JoinFree(x.domains, ',', '|');
      JoinFree(y.domains, ',', '|');
      FieldsExact(x.cn, Join(x.domains, ','), x.expiryDay, y.cn, Join(y.domains, ','), y.expiryDay);
      JoinInjective(x.domains, y.domains, ',');
    }
  }

  /** What follows the domains: nothing, or a pipe, the mode's name and the certificate. */
  function Tail(d: Declaration): string {
    ModeText(d.mode) + IdentityText(d.desired)
  }

  lemma ModeNamesDiffer(a: Mode, b: Mode)
    ensures Free(ModeName(a), '|') && Free(ModeName(b), '|') && (ModeName(a) == ModeName(b) <==> a == b)
  {
  }

  lemma TailStarts(d: Declaration)
    requires PlainDeclaration(d)
    ensures if d.mode.Unowned? then Tail(d) == ""
            else |Tail(d)| > 0 && Tail(d)[0] == '|' && Tail(d)[1..] == ModeName(d.mode) + IdentityText(d.desired)
    ensures |IdentityText(d.desired)| > 0 ==> IdentityText(d.desired)[0] == '|'
  {
    hide ModeName, Plain;
    assert ("|" + ModeName(d.mode) + IdentityText(d.desired))[1..] == ModeName(d.mode) + IdentityText(d.desired);
  }

  lemma TailExact(a: Declaration, b: Declaration)
    requires PlainDeclaration(a) && PlainDeclaration(b) && Tail(a) == Tail(b)
    ensures a.mode == b.mode && a.desired == b.desired
  {
    hide IdentityText, Plain, ModeName;
    var m, n := ModeName(a.mode), ModeName(b.mode);
    var s, t := IdentityText(a.desired), IdentityText(b.desired);
    TailStarts(a);
    TailStarts(b);
    ModeNamesDiffer(a.mode, b.mode);
    if !a.mode.Unowned? {
      assert m + s == Tail(a)[1..] && n + t == Tail(b)[1..];
      HeadAndTail(m, s, n, t);
      IdentityTextExact(a.desired, b.desired);
    }
  }

  lemma BeforeTail(m: string, t: string)
    requires Free(m, '|') && (|t| > 0 ==> t[0] == '|')
    ensures Before(m + t, '|') == m
  {
    if |t| > 0 {
      assert m + t == m + ['|'] + t[1..];
      BeforeAppend(m, '|', t[1..]);
    } else {
      assert m + t == m;
    }
  }

  /** A pipe-free head is told apart from what follows it, present or not. */
  lemma HeadAndTail(m1: string, t1: string, m2: string, t2: string)
    requires Free(m1, '|') && Free(m2, '|') && (|t1| > 0 ==> t1[0] == '|') && (|t2| > 0 ==> t2[0] == '|')
    requires m1 + t1 == m2 + t2
    ensures m1 == m2 && t1 == t2
  {
    BeforeTail(m1, t1);
    BeforeTail(m2, t2);
    assert t1 == (m1 + t1)[|m1|..] && t2 == (m2 + t2)[|m2|..];
  }

  /**
   Before hashing, the budget key is the same exactly for the same domains in any order, the same mode and the same
   certificate identity.
   */
  lemma BudgetKeyExact(a: Declaration, b: Declaration)
    requires PlainDeclaration(a) && PlainDeclaration(b)
    ensures BudgetKey(a) == BudgetKey(b) <==>
            && multiset(a.settings.domains.GetOr([])) == multiset(b.settings.domains.GetOr([]))
            && a.mode == b.mode && a.desired == b.desired
  {
    hide IdentityText, Join, Sort, Plain;
    var d1, d2 := a.settings.domains.GetOr([]), b.settings.domains.GetOr([]);
    DomainsExact(d1, d2);
    TailStarts(a);
    TailStarts(b);
    if BudgetKey(a) == BudgetKey(b) {
      HeadAndTail(Join(Sort(d1), ','), Tail(a), Join(Sort(d2), ','), Tail(b));
      TailExact(a, b);
    }
  }

  lemma DomainsExact(a: seq<string>, b: seq<string>)
    requires Plain(a) && Plain(b)
    ensures Join(Sort(a), ',') == Join(Sort(b), ',') <==> multiset(a) == multiset(b)
    ensures Free(Join(Sort(a), ','), '|') && Free(Join(Sort(b), ','), '|')
  {
    SortedPlain(a);
    SortedPlain(b);
    SortEqualIff(a, b);
    JoinFree(Sort(a), ',', '|');
    JoinFree(Sort(b), ',', '|');
    if Join(Sort(a), ',') == Join(Sort(b), ',') { JoinInjective(Sort(a), Sort(b), ','); }
  }

  lemma SortedPlain(a: seq<string>)
    requires Plain(a)
    ensures Plain(Sort(a))
  {
    SortSorts(a);
    forall i | 0 <= i < |Sort(a)| ensures |Sort(a)[i]| > 0 && Free(Sort(a)[i], ',') && Free(Sort(a)[i], '|') {
      assert Sort(a)[i] in multiset(a);
    }
  }

  /** The text that is hashed: sorted domains, the mode's name when there is an ssl block, the desired identity. */
  lemma BudgetKeyText(d: Declaration)
    ensures exists ds ::
              && Sorted(ds) && multiset(ds) == multiset(d.settings.domains.GetOr([]))
              && BudgetKey(d) ==
                 Join(ds, ',')
                 + (match d.mode
                    case Unowned => ""
                    case NoCertificate => "|none"
                    case LetsEncrypt => "|letsEncrypt"
                    case Custom => "|custom")
                 + match d.desired
                   case None => ""
                   case Some(i) => "|" + i.cn + "|" + Join(i.domains, ',') + "|" + i.expiryDay
  {
    hide Join, Sort;
    var ds := Sort(d.settings.domains.GetOr([]));
    SortSorts(d.settings.domains.GetOr([]));
    var mode := match d.mode
      case Unowned => ""
      case NoCertificate => "|none"
      case LetsEncrypt => "|letsEncrypt"
      case Custom => "|custom";
    assert ModeText(d.mode) == mode;
    assert BudgetKey(d) == Join(ds, ',') + mode + IdentityText(d.desired);
  }
}
