/** From an access list to the grants that are rendered. */
module Grants {
  import opened Wrappers
  import opened Text
  import opened Policy
  import opened GrantTheorems

  /** One access entry: a direct bucket name or a reference to an S3Bucket, and a level. */
  datatype Access = Access(name: Option<string>, ref: Option<string>, level: Level)
  datatype Bucket = Bucket(ready: bool, name: string, location: Option<string>)
  datatype Lookup = Found(bucket: Bucket) | Absent | Unreadable
  datatype GrantError = NotFound | NotReady | ReadFailed | BadSpec | Duplicate(bucket: string)
  datatype Resolved = Resolved(grant: Grant, region: string)

  function LookupOf(buckets: map<string, Lookup>, ref: string): Lookup {
    if ref in buckets then buckets[ref] else Absent
  }

  /** Exactly one of name and reference must be given; a referenced bucket must be ready and named. */
  function Resolve(a: Access, buckets: map<string, Lookup>): Result<Resolved, GrantError> {
    if a.name.GetOr("") != "" && a.ref.None? then Ok(Resolved(Grant(a.name.value, a.level), ""))
    else if a.ref.Some? && a.name.GetOr("") == "" then
      match LookupOf(buckets, a.ref.value)
      case Absent => Err(NotFound)
      case Unreadable => Err(ReadFailed)
      case Found(b) =>
        if !b.ready || b.name == "" then Err(NotReady)
        else Ok(Resolved(Grant(b.name, a.level), b.location.GetOr("")))
    else Err(BadSpec)
  }

  /** The entries that resolve, in list order. */
  function Survivors(list: seq<Access>, buckets: map<string, Lookup>): seq<Resolved> {
    if |list| == 0 then []
    else
      var rest := Survivors(list[1..], buckets);
      match Resolve(list[0], buckets)
      case Ok(r) => [r] + rest
      case Err(_) => rest
  }

  function GrantsOf(rs: seq<Resolved>): seq<Grant> {
    seq(|rs|, i requires 0 <= i < |rs| => rs[i].grant)
  }

  predicate AllResolve(list: seq<Access>, buckets: map<string, Lookup>) {
    forall i | 0 <= i < |list| :: Resolve(list[i], buckets).Ok?
  }

  /** What the list must satisfy: everything resolves (unless the user is being deleted) and no bucket appears twice. */
  predicate Accepted(list: seq<Access>, buckets: map<string, Lookup>, deleting: bool) {
    (deleting || AllResolve(list, buckets)) && DistinctBuckets(GrantsOf(Survivors(list, buckets)))
  }

  // ---- what an entry asks for ------------------------------------------------------------

  predicate Named(a: Access) {
    a.name.Some? && a.name.value != ""
  }

  /** The entry gives access to bucket `b` of `region`: by name, or through a bucket that is ready and named. */
  predicate Gives(a: Access, buckets: map<string, Lookup>, b: string, region: string) {
    && b != ""
    && if a.ref.None? then a.name == Some(b) && region == ""
       else
         && !Named(a) && a.ref.value in buckets && buckets[a.ref.value].Found?
         && var found := buckets[a.ref.value].bucket;
         && found.ready && found.name == b
         && region == if found.location.Some? then found.location.value else ""
  }

  ghost predicate GivesTo(a: Access, buckets: map<string, Lookup>, b: string) {
    exists region :: Gives(a, buckets, b, region)
  }

  /** Why an entry is refused by itself: both or neither of name and reference, or the bucket referred to. */
  predicate RefusedWith(a: Access, buckets: map<string, Lookup>, e: GrantError) {
    if a.ref.None? || Named(a) then e == BadSpec && (a.ref.Some? <==> Named(a))
    else if a.ref.value !in buckets then e == NotFound
    else
      match buckets[a.ref.value]
      case Absent => e == NotFound
      case Unreadable => e == ReadFailed
      case Found(x) => e == NotReady && (x.ready ==> x.name == "")
  }

  lemma ResolveIs(a: Access, buckets: map<string, Lookup>)
    ensures forall g, region :: Resolve(a, buckets) == Ok(Resolved(g, region)) <==>
              g.level == a.level && Gives(a, buckets, g.bucket, region)
    ensures forall e :: Resolve(a, buckets) == Err(e) <==> RefusedWith(a, buckets, e)
  {
  }

  lemma GivesIs(a: Access, buckets: map<string, Lookup>)
    ensures forall b :: GivesTo(a, buckets, b) <==>
              Resolve(a, buckets).Ok? && Resolve(a, buckets).value.grant == Grant(b, a.level)
  {
    hide Resolve, Gives;
    ResolveIs(a, buckets);
    if Resolve(a, buckets).Ok? {
      var v := Resolve(a, buckets).value;
      assert Resolve(a, buckets) == Ok(Resolved(v.grant, v.region));
      assert Gives(a, buckets, v.grant.bucket, v.region) && v.grant == Grant(v.grant.bucket, a.level);
    }
    forall b | GivesTo(a, buckets, b)
      ensures Resolve(a, buckets).Ok? && Resolve(a, buckets).value.grant == Grant(b, a.level)
    {
      var region :| Gives(a, buckets, b, region);
      assert Grant(b, a.level).bucket == b;
      assert Resolve(a, buckets) == Ok(Resolved(Grant(b, a.level), region));
    }
  }

  /** No bucket is given twice. */
  ghost predicate GivenOnce(list: seq<Access>, buckets: map<string, Lookup>) {
    forall i, j, b | 0 <= i < j < |list| && GivesTo(list[i], buckets, b) :: !GivesTo(list[j], buckets, b)
  }

  ghost predicate GivesSome(a: Access, buckets: map<string, Lookup>) {
    exists b :: GivesTo(a, buckets, b)
  }

  /** Every entry gives access to some bucket. */
  ghost predicate AllGive(list: seq<Access>, buckets: map<string, Lookup>) {
    forall i | 0 <= i < |list| :: GivesSome(list[i], buckets)
  }

  /** Some entry of this level gives access to the bucket. */
  ghost predicate Asked(list: seq<Access>, buckets: map<string, Lookup>, b: string, l: Level) {
    exists i | 0 <= i < |list| :: list[i].level == l && GivesTo(list[i], buckets, b)
  }

  lemma AskedCons(list: seq<Access>, buckets: map<string, Lookup>, b: string, l: Level)
    requires |list| > 0
    ensures Asked(list, buckets, b, l) <==>
            (list[0].level == l && GivesTo(list[0], buckets, b)) || Asked(list[1..], buckets, b, l)
  {
    hide GivesTo;
    var rest := list[1..];
    if i :| 0 <= i < |list| && list[i].level == l && GivesTo(list[i], buckets, b) {
      if i > 0 { assert rest[i - 1] == list[i]; }
    }
    if i :| 0 <= i < |rest| && rest[i].level == l && GivesTo(rest[i], buckets, b) { assert list[i + 1] == rest[i]; }
  }

  /** The granted pairs are those some entry asks for. */
  lemma {:induction false} GrantedIff(list: seq<Access>, buckets: map<string, Lookup>)
    ensures forall g :: g in GrantsOf(Survivors(list, buckets)) <==> Asked(list, buckets, g.bucket, g.level)
  {
    hide Resolve, GivesTo, Asked;
    if |list| > 0 {
      GrantedIff(list[1..], buckets);
      GivesIs(list[0], buckets);
      ResolvedLevel(list[0], buckets);
      GrantsCons(list, buckets);
      forall g: Grant ensures Asked(list, buckets, g.bucket, g.level) <==> g in GrantsOf(Survivors(list, buckets)) {
        AskedCons(list, buckets, g.bucket, g.level);
      }
    } else {
      forall b, l ensures !Asked(list, buckets, b, l) { AskedNone(buckets, b, l); }
    }
  }

  lemma AskedNone(buckets: map<string, Lookup>, b: string, l: Level)
    ensures !Asked([], buckets, b, l)
  {
  }

  lemma GrantsCons(list: seq<Access>, buckets: map<string, Lookup>)
    requires |list| > 0
    ensures GrantsOf(Survivors(list, buckets)) ==
            (match Resolve(list[0], buckets) case Ok(r) => [r.grant] case Err(_) => [])
            + GrantsOf(Survivors(list[1..], buckets))
  {
  }

  lemma DistinctBucketsCons(g: Grant, gs: seq<Grant>)
    ensures DistinctBuckets([g] + gs) <==> DistinctBuckets(gs) && forall x | x in gs :: x.bucket != g.bucket
  {
    var all := [g] + gs;
    assert all[0] == g && forall i | 0 <= i < |gs| :: all[i + 1] == gs[i];
    if DistinctBuckets(all) {
      forall i, j | 0 <= i < j < |gs| ensures gs[i].bucket != gs[j].bucket {
        assert all[i + 1].bucket != all[j + 1].bucket;
      }
    }
  }

  lemma {:induction false} DistinctIff(list: seq<Access>, buckets: map<string, Lookup>)
    ensures DistinctBuckets(GrantsOf(Survivors(list, buckets))) <==> GivenOnce(list, buckets)
  {
    hide Resolve, GivesTo, DistinctBuckets;
    if |list| == 0 {
      OneOrNone(GrantsOf(Survivors(list, buckets)));
    } else {
      DistinctIff(list[1..], buckets);
      GrantedIff(list[1..], buckets);
      GivesIs(list[0], buckets);
      GrantsCons(list, buckets);
      OnceCons(list, buckets);
      var rest := GrantsOf(Survivors(list[1..], buckets));
      var first := Resolve(list[0], buckets);
      if first.Ok? {
        var g := first.value.grant;
        DistinctBucketsCons(g, rest);
        ResolvedLevel(list[0], buckets);
        if x :| x in rest && x.bucket == g.bucket { assert Asked(list[1..], buckets, g.bucket, x.level); }
        forall i | 0 <= i < |list[1..]| && GivesTo(list[1..][i], buckets, g.bucket)
          ensures Grant(g.bucket, list[1..][i].level) in rest
        {
          assert Asked(list[1..], buckets, g.bucket, list[1..][i].level);
        }
      } else {
        assert [] + rest == rest;
      }
    }
  }

  lemma OneOrNone(gs: seq<Grant>)
    requires |gs| <= 1
    ensures DistinctBuckets(gs)
  {
  }

  lemma OnceCons(list: seq<Access>, buckets: map<string, Lookup>)
    requires |list| > 0
    ensures GivenOnce(list, buckets) <==>
            && GivenOnce(list[1..], buckets)
            && forall i, b | 0 <= i < |list[1..]| && GivesTo(list[0], buckets, b) :: !GivesTo(list[1..][i], buckets, b)
  {
    hide GivesTo;
    var rest := list[1..];
    if GivenOnce(list, buckets) {
      forall i, j, b | 0 <= i < j < |rest| && GivesTo(rest[i], buckets, b) ensures !GivesTo(rest[j], buckets, b) {
        assert list[i + 1] == rest[i] && list[j + 1] == rest[j];
      }
      forall i, b | 0 <= i < |rest| && GivesTo(list[0], buckets, b) ensures !GivesTo(rest[i], buckets, b) {
        assert list[i + 1] == rest[i];
      }
    } else {
      var i, j, b :| 0 <= i < j < |list| && GivesTo(list[i], buckets, b) && GivesTo(list[j], buckets, b);
      assert rest[j - 1] == list[j];
      if i > 0 { assert rest[i - 1] == list[i]; }
    }
  }

  /** A list is accepted exactly when every entry gives access (or the user goes) and no bucket is given twice. */
  lemma AcceptedIff(list: seq<Access>, buckets: map<string, Lookup>, deleting: bool)
    ensures Accepted(list, buckets, deleting) <==>
            (deleting || AllGive(list, buckets)) && GivenOnce(list, buckets)
  {
    hide Resolve, DistinctBuckets, GivenOnce, GivesSome;
    DistinctIff(list, buckets);
    forall i | 0 <= i < |list| ensures Resolve(list[i], buckets).Ok? <==> GivesSome(list[i], buckets) {
      GivesSomeIs(list[i], buckets);
    }
  }

  lemma GivesSomeIs(a: Access, buckets: map<string, Lookup>)
    ensures Resolve(a, buckets).Ok? <==> GivesSome(a, buckets)
  {
    hide Resolve, GivesTo;
    GivesIs(a, buckets);
    ResolvedLevel(a, buckets);
    if Resolve(a, buckets).Ok? { assert GivesTo(a, buckets, Resolve(a, buckets).value.grant.bucket); }
  }

  lemma ResolvedLevel(a: Access, buckets: map<string, Lookup>)
    ensures Resolve(a, buckets).Ok? ==>
              Resolve(a, buckets).value.grant == Grant(Resolve(a, buckets).value.grant.bucket, a.level)
  {
  }

  /** The entry at `k` is refused by itself, or gives a bucket an earlier one gives. */
  ghost predicate FailsAt(list: seq<Access>, buckets: map<string, Lookup>, deleting: bool, k: nat, e: GrantError)
    requires k < |list|
  {
    || (!deleting && RefusedWith(list[k], buckets, e))
    || (e.Duplicate? && GivesTo(list[k], buckets, e.bucket) && exists j | 0 <= j < k ::
          GivesTo(list[j], buckets, e.bucket))
  }

  /** An entry whose bucket an earlier survivor has is a duplicate. */
  lemma SecondGiver(list: seq<Access>, buckets: map<string, Lookup>, deleting: bool, k: nat, s: Resolved)
    requires k < |list| && Resolve(list[k], buckets).Ok? && s in Survivors(list[..k], buckets)
    requires s.grant.bucket == Resolve(list[k], buckets).value.grant.bucket
    ensures FailsAt(list, buckets, deleting, k, Duplicate(s.grant.bucket))
  {
    hide Resolve, GivesTo, RefusedWith;
    GivesIs(list[k], buckets);
    ResolvedLevel(list[k], buckets);
    var before := list[..k];
    GrantedIff(before, buckets);
    var rs := Survivors(before, buckets);
    var i :| 0 <= i < |rs| && rs[i] == s;
    assert GrantsOf(rs)[i] == s.grant;
    assert Asked(before, buckets, s.grant.bucket, s.grant.level);
    var j :| 0 <= j < |before| && GivesTo(before[j], buckets, s.grant.bucket);
    assert list[j] == before[j];
  }

  /** A refused entry means the whole list is unacceptable. */
  lemma FailureIsFatal(list: seq<Access>, buckets: map<string, Lookup>, deleting: bool, k: nat, e: GrantError)
    requires k < |list| && FailsAt(list, buckets, deleting, k, e)
    ensures !((deleting || AllGive(list, buckets)) && GivenOnce(list, buckets))
  {
    hide Resolve, GivesTo, RefusedWith;
    if !deleting && RefusedWith(list[k], buckets, e) {
      ResolveIs(list[k], buckets);
      GivesSomeIs(list[k], buckets);
    } else {
      var j :| 0 <= j < k && GivesTo(list[j], buckets, e.bucket);
    }
  }

  lemma {:induction false} SurvivorsConcat(a: seq<Access>, b: seq<Access>, buckets: map<string, Lookup>)
    ensures Survivors(a + b, buckets) == Survivors(a, buckets) + Survivors(b, buckets)
  {
    if |a| == 0 {
      assert a + b == b;
    } else {
      assert (a + b)[1..] == a[1..] + b;
      SurvivorsConcat(a[1..], b, buckets);
    }
  }

  lemma SurvivorsStep(list: seq<Access>, buckets: map<string, Lookup>, i: nat)
    requires i < |list|
    ensures Survivors(list[..i + 1], buckets) == Survivors(list[..i], buckets) +
            (match Resolve(list[i], buckets) case Ok(r) => [r] case Err(_) => [])
  {
    assert list[..i + 1] == list[..i] + [list[i]];
    SurvivorsConcat(list[..i], [list[i]], buckets);
  }

  function RegionOf(rs: seq<Resolved>, bucket: string): string {
    if |rs| == 0 then "" else if rs[0].grant.bucket == bucket then rs[0].region else RegionOf(rs[1..], bucket)
  }

  lemma {:induction false} RegionOfMember(rs: seq<Resolved>, i: nat)
    requires i < |rs| && DistinctBuckets(GrantsOf(rs))
    ensures RegionOf(rs, rs[i].grant.bucket) == rs[i].region
  {
    var gs := GrantsOf(rs);
    assert gs[i].bucket == rs[i].grant.bucket;
    if i > 0 {
      assert gs[0].bucket == rs[0].grant.bucket;
      assert GrantsOf(rs[1..]) == gs[1..];
      RegionOfMember(rs[1..], i - 1);
    }
  }

  /** The region of the bucket that sorts first. */
  function PrimaryRegion(rs: seq<Resolved>): string {
    var sorted := SortGrants(GrantsOf(rs));
    if |sorted| == 0 then "" else RegionOf(rs, sorted[0].bucket)
  }

  method ResolveGrants(list: seq<Access>, buckets: map<string, Lookup>, deleting: bool)
    returns (r: Result<seq<Grant>, GrantError>, primaryRegion: string)
    ensures r.Ok? <==> (deleting || AllGive(list, buckets)) && GivenOnce(list, buckets)
    ensures r.Ok? ==> SortedGrants(r.value) && DistinctBuckets(r.value)
    ensures r.Ok? ==> forall g :: g in r.value <==> Asked(list, buckets, g.bucket, g.level)
    ensures r.Ok? ==> if r.value == [] then primaryRegion == ""
            else exists i | 0 <= i < |list| :: Gives(list[i], buckets, r.value[0].bucket, primaryRegion)
    ensures r.Ok? ==> r.value == SortGrants(GrantsOf(Survivors(list, buckets)))
                      && primaryRegion == PrimaryRegion(Survivors(list, buckets))
    ensures r.Err? ==> exists k | 0 <= k < |list| ::
              && (deleting || AllGive(list[..k], buckets)) && GivenOnce(list[..k], buckets)
              && FailsAt(list, buckets, deleting, k, r.error)
  {
    hide Resolve, GivesTo, Gives, RefusedWith, GivenOnce, AllGive, Asked;
    var out: seq<Grant> := [];
    var seen: set<string> := {};
    var region: map<string, string> := map[];
    for i := 0 to |list|
      invariant Accepted(list[..i], buckets, deleting)
      invariant out == GrantsOf(Survivors(list[..i], buckets))
      invariant forall b :: b in seen <==> exists s | s in Survivors(list[..i], buckets) :: s.grant.bucket == b
      invariant forall s | s in Survivors(list[..i], buckets) ::
          s.grant.bucket in region && region[s.grant.bucket] == s.region
    {
      SurvivorsStep(list, buckets, i);
      var res := Resolve(list[i], buckets);
      if res.Err? {
        if deleting {
          assert Survivors(list[..i + 1], buckets) == Survivors(list[..i], buckets);
          continue;
        }
        ResolveIs(list[i], buckets);
        FailureIsFatal(list, buckets, deleting, i, res.error);
        AcceptedIff(list[..i], buckets, deleting);
        return Err(res.error), "";
      }
      var g := res.value.grant;
      if g.bucket in seen {
        ghost var s :| s in Survivors(list[..i], buckets) && s.grant.bucket == g.bucket;
        SecondGiver(list, buckets, deleting, i, s);
        FailureIsFatal(list, buckets, deleting, i, Duplicate(g.bucket));
        AcceptedIff(list[..i], buckets, deleting);
        return Err(Duplicate(g.bucket)), "";
      }
      Extended(Survivors(list[..i], buckets), res.value);
      assert Survivors(list[..i + 1], buckets) == Survivors(list[..i], buckets) + [res.value];
      seen := seen + {g.bucket};
      region := region[g.bucket := res.value.region];
      out := out + [g];
    }
    assert list[..|list|] == list;
    ghost var rs := Survivors(list, buckets);
    var sorted := SortGrants(out);
    primaryRegion := "";
    if |sorted| > 0 {
      var i := SourceOf(rs, sorted);
      RegionOfMember(rs, i);
      primaryRegion := region[sorted[0].bucket];
    }
    r := Ok(sorted);
    AcceptedIff(list, buckets, deleting);
    GrantedSorted(list, buckets);
    if |sorted| > 0 { RegionGiven(list, buckets, sorted[0], primaryRegion); }
  }

  lemma GrantedSorted(list: seq<Access>, buckets: map<string, Lookup>)
    ensures var sorted := SortGrants(GrantsOf(Survivors(list, buckets)));
            && SortedGrants(sorted) && (forall g :: g in sorted <==> Asked(list, buckets, g.bucket, g.level))
            && (DistinctBuckets(GrantsOf(Survivors(list, buckets))) ==> DistinctBuckets(sorted))
  {
    var gs := GrantsOf(Survivors(list, buckets));
    SortGrantsSorts(gs);
    GrantedIff(list, buckets);
    if DistinctBuckets(gs) { PermutedDistinct(gs, SortGrants(gs)); }
    forall g ensures g in SortGrants(gs) <==> g in gs { assert g in multiset(gs) <==> g in multiset(SortGrants(gs)); }
  }

  /** The region on record for a bucket comes from an entry that gives the bucket. */
  lemma {:induction false} RegionGiven(list: seq<Access>, buckets: map<string, Lookup>, g: Grant, region: string)
    requires exists r | r in Survivors(list, buckets) :: r.grant.bucket == g.bucket && r.region == region
    ensures exists i | 0 <= i < |list| :: Gives(list[i], buckets, g.bucket, region)
  {
    hide Resolve, Gives;
    var r :| r in Survivors(list, buckets) && r.grant.bucket == g.bucket && r.region == region;
    ResolveIs(list[0], buckets);
    if Resolve(list[0], buckets) == Ok(r) {
      assert r == Resolved(r.grant, r.region);
      assert Gives(list[0], buckets, g.bucket, region);
    } else {
      assert r in Survivors(list[1..], buckets);
      RegionGiven(list[1..], buckets, g, region);
      var i :| 0 <= i < |list[1..]| && Gives(list[1..][i], buckets, g.bucket, region);
      assert list[i + 1] == list[1..][i];
    }
  }

  lemma Extended(rs: seq<Resolved>, r: Resolved)
    requires DistinctBuckets(GrantsOf(rs)) && forall s | s in rs :: s.grant.bucket != r.grant.bucket
    ensures GrantsOf(rs + [r]) == GrantsOf(rs) + [r.grant] && DistinctBuckets(GrantsOf(rs + [r]))
  {
  }

  lemma SourceOf(rs: seq<Resolved>, sorted: seq<Grant>) returns (i: nat)
    requires sorted == SortGrants(GrantsOf(rs)) && |sorted| > 0
    ensures i < |rs| && rs[i].grant == sorted[0]
  {
    SortGrantsSorts(GrantsOf(rs));
    assert sorted[0] in multiset(GrantsOf(rs));
    i :| 0 <= i < |rs| && GrantsOf(rs)[i] == sorted[0];
  }

  // ---- what the list means, whatever its order -----------------------------------------

  lemma SameFirstGrant(a: seq<Grant>, b: seq<Grant>)
    requires SortedGrants(a) && SortedGrants(b) && DistinctBuckets(a) && multiset(a) == multiset(b)
    requires |a| > 0 && |b| > 0
    ensures a[0] == b[0]
  {
    assert a[0] in multiset(b) && b[0] in multiset(a);
    var i :| 0 <= i < |b| && b[i] == a[0];
    var j :| 0 <= j < |a| && a[j] == b[0];
    LeqReflexive(a[0].bucket);
    assert Leq(a[0].bucket, b[0].bucket) && Leq(b[0].bucket, a[0].bucket);
    LeqAntisymmetric(a[0].bucket, b[0].bucket);
  }

  lemma GrantTail(a: seq<Grant>)
    requires |a| > 0
    ensures SortedGrants(a) ==> SortedGrants(a[1..])
    ensures DistinctBuckets(a) ==> DistinctBuckets(a[1..])
  {
  }

  lemma SameTails(a: seq<Grant>, b: seq<Grant>)
    requires |a| > 0 && |b| > 0 && a[0] == b[0] && multiset(a) == multiset(b)
    ensures multiset(a[1..]) == multiset(b[1..])
  {
    SameRest(a, b, 0);
    assert b[..0] + b[1..] == b[1..];
  }

  /** Grants sorted by distinct buckets have one listing. */
  lemma {:induction false} SortedGrantsUnique(a: seq<Grant>, b: seq<Grant>)
    requires SortedGrants(a) && SortedGrants(b) && DistinctBuckets(a) && multiset(a) == multiset(b)
    ensures a == b
  {
    assert |a| == |multiset(a)| == |b|;
    if |a| > 0 {
      SameFirstGrant(a, b);
      GrantTail(a);
      GrantTail(b);
      SameTails(a, b);
      SortedGrantsUnique(a[1..], b[1..]);
      assert a == [a[0]] + a[1..] && b == [b[0]] + b[1..];
    }
  }

  /** Listing the access entries in another order changes nothing about an accepted list. */
  lemma OrderNeverMatters(a: seq<Access>, b: seq<Access>, buckets: map<string, Lookup>, deleting: bool)
    requires multiset(a) == multiset(b) && Accepted(a, buckets, deleting)
    ensures Accepted(b, buckets, deleting)
    ensures SortGrants(GrantsOf(Survivors(a, buckets))) == SortGrants(GrantsOf(Survivors(b, buckets)))
    ensures PrimaryRegion(Survivors(a, buckets)) == PrimaryRegion(Survivors(b, buckets))
  {
    var ra, rb := Survivors(a, buckets), Survivors(b, buckets);
    SurvivorsPermute(a, b, buckets);
    GrantsPermute(ra, rb);
    PermutedDistinct(GrantsOf(ra), GrantsOf(rb));
    if !deleting {
      forall i | 0 <= i < |b| ensures Resolve(b[i], buckets).Ok? {
        assert b[i] in multiset(a);
      }
    }
    var sa, sb := SortGrants(GrantsOf(ra)), SortGrants(GrantsOf(rb));
    SortGrantsSorts(GrantsOf(ra));
    SortGrantsSorts(GrantsOf(rb));
    PermutedDistinct(GrantsOf(ra), sa);
    SortedGrantsUnique(sa, sb);
    if |sa| > 0 {
      var i := SourceOf(ra, sa);
      var j := SourceOf(rb, sb);
      RegionOfMember(ra, i);
      RegionOfMember(rb, j);
      SameEntry(ra, rb, i, j);
    }
  }

  lemma SameEntry(ra: seq<Resolved>, rb: seq<Resolved>, i: nat, j: nat)
    requires multiset(ra) == multiset(rb) && DistinctBuckets(GrantsOf(rb))
    requires i < |ra| && j < |rb| && ra[i].grant == rb[j].grant
    ensures ra[i] == rb[j]
  {
    assert ra[i] in multiset(rb);
    var k :| 0 <= k < |rb| && rb[k] == ra[i];
    assert GrantsOf(rb)[k].bucket == GrantsOf(rb)[j].bucket;
    assert k == j;
  }

  lemma {:induction false} SurvivorsPermute(a: seq<Access>, b: seq<Access>, buckets: map<string, Lookup>)
    requires multiset(a) == multiset(b)
    ensures multiset(Survivors(a, buckets)) == multiset(Survivors(b, buckets))
  {
    assert |a| == |multiset(a)| == |b|;
    if |a| > 0 {
      assert a[0] in multiset(b);
      var k :| 0 <= k < |b| && b[k] == a[0];
      SameRest(a, b, k);
      SurvivorsPermute(a[1..], b[..k] + b[k + 1..], buckets);
      SurvivorsExtract(b, k, buckets);
      SurvivorsExtract(a, 0, buckets);
      assert a[..0] + a[1..] == a[1..];
    }
  }

  lemma SurvivorsExtract(b: seq<Access>, k: nat, buckets: map<string, Lookup>)
    requires k < |b|
    ensures multiset(Survivors(b, buckets)) ==
            multiset(Survivors([b[k]], buckets)) + multiset(Survivors(b[..k] + b[k + 1..], buckets))
  {
    var left, right := b[..k], b[k + 1..];
    assert b == left + ([b[k]] + right);
    SurvivorsConcat(left, right, buckets);
    SurvivorsConcat(left, [b[k]] + right, buckets);
    SurvivorsConcat([b[k]], right, buckets);
  }

  lemma GrantsPermute(a: seq<Resolved>, b: seq<Resolved>)
    requires multiset(a) == multiset(b)
    ensures multiset(GrantsOf(a)) == multiset(GrantsOf(b))
  {
    var f := (r: Resolved) => r.grant;
    ApplyPermute(f, a, b);
    GrantsApply(a, f);
    GrantsApply(b, f);
  }

  lemma {:induction false} GrantsApply(a: seq<Resolved>, f: Resolved -> Grant)
    requires forall r :: f(r) == r.grant
    ensures GrantsOf(a) == Apply(f, a)
  {
    if |a| > 0 {
      GrantsApply(a[1..], f);
      assert GrantsOf(a)[1..] == GrantsOf(a[1..]);
      assert GrantsOf(a) == [a[0].grant] + GrantsOf(a[1..]);
    }
  }

  /**
   From access list to policy and back: every entry that resolves reads back at its own level, and nothing else does.
   */
  lemma AccessRoundTrip(list: seq<Access>, buckets: map<string, Lookup>, deleting: bool, q: string)
    requires (deleting || AllGive(list, buckets)) && GivenOnce(list, buckets) && Free(q, '/')
    requires forall i, b | 0 <= i < |list| && GivesTo(list[i], buckets, b) :: Free(b, '/')
    ensures forall l :: Derived(Rendered(GrantsOf(Survivors(list, buckets))), q) == Some(l)
                        <==> Asked(list, buckets, q, l)
  {
    hide GivesTo, GivenOnce, AllGive, Survivors, Free, Rendered, Derived;
    var gs := GrantsOf(Survivors(list, buckets));
    AcceptedIff(list, buckets, deleting);
    GrantedIff(list, buckets);
    forall g | g in gs ensures Free(g.bucket, '/') { assert Asked(list, buckets, g.bucket, g.level); }
    DeriveRoundTrip(gs, q);
    MapMembers(gs);
    forall l ensures Asked(list, buckets, q, l) <==> Grant(q, l) in gs { assert Grant(q, l).bucket == q; }
  }
}
