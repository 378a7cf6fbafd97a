/** What each certificate decision means. */
module CdnDecisions {
  import opened Wrappers
  import opened Text
  import opened CdnSsl

  // ---- certificates, told by what they carry ---------------------------------------------

  /** Dates agree on the day where both carry one. */
  predicate SameDay(a: string, b: string) {
    |a| < 10 || |b| < 10 || a[..10] == b[..10]
  }

  /** The marker names this id and records nothing the certificate contradicts. */
  predicate Ours(m: Option<Marker>, c: Certificate) {
    && m.Some? && m.value.id == Some(c.id)
    && (m.value.typ == None || m.value.typ == Some(c.typ)) && (m.value.cn == None || m.value.cn == Some(c.cn))
    && (m.value.expiresAt.None? || SameDay(m.value.expiresAt.value, c.expiresAt))
  }

  /** Subject, SANs in any order, and expiry day are the desired ones; the parsed identity lists its SANs sorted. */
  predicate Carries(c: Certificate, d: Identity) {
    && c.cn == d.cn && Sorted(d.domains) && multiset(c.domains) == multiset(d.domains)
    && d.expiryDay == if |c.expiresAt| < 10 then c.expiresAt else c.expiresAt[..10]
  }

  lemma OursIff(m: Option<Marker>, c: Certificate)
    ensures ManagedMatches(m, c) <==> Ours(m, c)
  {
  }

  lemma CarriesIff(c: Certificate, d: Identity)
    ensures IdentityOf(c) == d <==> Carries(c, d)
  {
    SortSorts(c.domains);
    if Carries(c, d) { SortedUnique(Sort(c.domains), d.domains); }
  }

  predicate FirstLE(cs: seq<Certificate>, k: int) {
    0 <= k < |cs| && cs[k].typ == "lets_encrypt" && forall j | 0 <= j < k :: cs[j].typ != "lets_encrypt"
  }

  predicate FirstInSlot(cs: seq<Certificate>, slot: Option<int>, k: int) {
    0 <= k < |cs| && slot == Some(cs[k].id) && forall j | 0 <= j < k :: slot != Some(cs[j].id)
  }

  predicate FirstOurs(cs: seq<Certificate>, m: Option<Marker>, k: int) {
    0 <= k < |cs| && Ours(m, cs[k]) && forall j | 0 <= j < k :: !Ours(m, cs[j])
  }

  predicate FirstCarrying(cs: seq<Certificate>, d: Identity, k: int) {
    0 <= k < |cs| && Carries(cs[k], d) && forall j | 0 <= j < k :: !Carries(cs[j], d)
  }

  /** The first other certificate of the identity. */
  predicate FirstCopy(cs: seq<Certificate>, d: Identity, keep: int, k: int) {
    && 0 <= k < |cs| && Carries(cs[k], d) && cs[k].id != keep
    && forall j | 0 <= j < k :: !Carries(cs[j], d) || cs[j].id == keep
  }

  /** A search ends at the first hit, or hits nothing. */
  lemma {:induction false} FirstIndex(cs: seq<Certificate>, q: Query) returns (k: nat)
    ensures First(cs, q).None? ==> k == |cs|
    ensures First(cs, q).Some? ==> k < |cs| && First(cs, q) == Some(cs[k]) && Hits(q, cs[k])
    ensures forall j | 0 <= j < k :: !Hits(q, cs[j])
  {
    if |cs| == 0 || Hits(q, cs[0]) { return 0; }
    var m := FirstIndex(cs[1..], q);
    k := m + 1;
    forall j | 0 <= j < k ensures !Hits(q, cs[j]) {
      if j > 0 { assert cs[j] == cs[1..][j - 1]; }
    }
  }

  lemma SearchOurs(cs: seq<Certificate>, m: Option<Marker>)
    ensures NoneOurs(cs, m) <==> First(cs, Managed(m)).None?
    ensures forall k | FirstOurs(cs, m, k) :: First(cs, Managed(m)) == Some(cs[k])
    ensures NoneLE(cs) ==> First(cs, ManagedNotLE(m)) == First(cs, Managed(m))
  {
    hide ManagedMatches, Ours;
    forall c ensures ManagedMatches(m, c) <==> Ours(m, c) { OursIff(m, c); }
    var i := FirstIndex(cs, Managed(m));
    var j := FirstIndex(cs, ManagedNotLE(m));
    if i < |cs| { assert cs[i] in cs; }
    forall k | FirstOurs(cs, m, k) ensures k == i { assert Hits(Managed(m), cs[k]); }
    if NoneLE(cs) {
      assert forall x | 0 <= x < |cs| :: cs[x] in cs && (Hits(Managed(m), cs[x]) <==> Hits(ManagedNotLE(m), cs[x]));
      assert i == j;
    }
  }

  lemma SearchSlot(cs: seq<Certificate>, slot: int)
    requires NoneLE(cs)
    ensures SlotFree(cs, Some(slot)) <==> First(cs, OccupantNotLE(slot)).None?
    ensures First(cs, OccupantNotLE(slot)).Some? ==>
              exists k :: FirstInSlot(cs, Some(slot), k) && First(cs, OccupantNotLE(slot)) == Some(cs[k])
    ensures forall k | FirstInSlot(cs, Some(slot), k) :: First(cs, OccupantNotLE(slot)) == Some(cs[k])
  {
    var i := FirstIndex(cs, OccupantNotLE(slot));
    assert forall x | 0 <= x < |cs| :: cs[x] in cs && (Hits(OccupantNotLE(slot), cs[x]) <==> cs[x].id == slot);
    if i < |cs| { assert FirstInSlot(cs, Some(slot), i); }
    forall k | FirstInSlot(cs, Some(slot), k) ensures k == i { assert Hits(OccupantNotLE(slot), cs[k]); }
  }

  lemma SearchCarrying(cs: seq<Certificate>, d: Identity)
    ensures forall k | FirstCarrying(cs, d, k) :: First(cs, SameIdentity(d)) == Some(cs[k])
    ensures (forall c | c in cs :: !Carries(c, d)) ==> First(cs, SameIdentity(d)).None?
  {
    hide IdentityOf, Carries;
    forall c ensures IdentityOf(c) == d <==> Carries(c, d) { CarriesIff(c, d); }
    var i := FirstIndex(cs, SameIdentity(d));
    if i < |cs| { assert cs[i] in cs; }
    forall k | FirstCarrying(cs, d, k) ensures k == i { assert Hits(SameIdentity(d), cs[k]); }
  }

  lemma SearchCopy(cs: seq<Certificate>, d: Identity, keep: int)
    ensures forall k | FirstCopy(cs, d, keep, k) :: First(cs, OtherCopy(d, keep)) == Some(cs[k])
    ensures (forall c | c in cs && Carries(c, d) :: c.id == keep) <==> First(cs, OtherCopy(d, keep)).None?
  {
    hide IdentityOf, Carries;
    forall c ensures IdentityOf(c) == d <==> Carries(c, d) { CarriesIff(c, d); }
    var i := FirstIndex(cs, OtherCopy(d, keep));
    if i < |cs| { assert cs[i] in cs; }
    forall k | FirstCopy(cs, d, keep, k) ensures k == i { assert Hits(OtherCopy(d, keep), cs[k]); }
  }

  // ---- letsEncrypt ----------------------------------------------------------------------------

  predicate NoneLE(cs: seq<Certificate>) {
    forall c | c in cs :: c.typ != "lets_encrypt"
  }

  predicate SlotFree(cs: seq<Certificate>, slot: Option<int>) {
    forall c | c in cs :: slot != Some(c.id)
  }

  predicate NoneOurs(cs: seq<Certificate>, m: Option<Marker>) {
    forall c | c in cs :: !Ours(m, c)
  }

  /** The task with the highest id, the first of equals, is in progress. */
  predicate Running(tasks: seq<Task>) {
    exists k ::
      && 0 <= k < |tasks| && tasks[k].status == "in_progress"
      && (forall j | 0 <= j < k :: tasks[j].id < tasks[k].id)
      && (forall j | k < j < |tasks| :: tasks[j].id <= tasks[k].id)
  }

  lemma {:induction false} LatestIndex(tasks: seq<Task>) returns (k: nat)
    requires tasks != []
    ensures k < |tasks| && Latest(tasks) == Some(tasks[k])
    ensures forall j | 0 <= j < k :: tasks[j].id < tasks[k].id
    ensures forall j | k < j < |tasks| :: tasks[j].id <= tasks[k].id
  {
    var n := |tasks| - 1;
    k := n;
    if n > 0 {
      var m := LatestIndex(tasks[..n]);
      if tasks[n].id <= tasks[m].id { k := m; }
    }
  }

  lemma RunningIff(tasks: seq<Task>)
    ensures Running(tasks) <==> Latest(tasks).Some? && Latest(tasks).value.status == "in_progress"
  {
    if tasks != [] {
      var k := LatestIndex(tasks);
      if Running(tasks) {
        var m: int :| 0 <= m < |tasks| && tasks[m].status == "in_progress"
          && (forall j | 0 <= j < m :: tasks[j].id < tasks[m].id)
          && (forall j | m < j < |tasks| :: tasks[j].id <= tasks[m].id);
        assert m == k;
      }
    }
  }

  /** Four attempts per declaration, a quarter of an hour apart. */
  datatype Budget = Free | Waiting | Spent

  function BudgetOf(i: Inputs): Budget {
    var used := if i.budgetKey == i.prevBudgetKey then i.attempts else 0;
    if used >= 4 then Spent
    else if used > 0 && i.lastAttempt.Some? && i.now < i.lastAttempt.value + 15 * 60 then Waiting
    else Free
  }

  /** With no Let's Encrypt certificate: the slot, then our leftovers, the running task, the domains, the budget. */
  lemma LetsEncryptIssues(i: Inputs)
    requires i.mode.LetsEncrypt? && NoneLE(i.certificates)
    ensures var d, cs := Decide(i), i.certificates;
            var free := SlotFree(cs, i.boundID);
            var clear := free && NoneOurs(cs, i.managed);
            var ready := clear && !Running(i.tasks) && i.domainsAttached;
            && d.managed == i.managed && !d.action.Bind? && !d.action.Upload?
            && (d.action.Unbind? <==> exists k :: FirstInSlot(cs, i.boundID, k) && Ours(i.managed, cs[k]))
            && (d.action.DeleteOld? <==> free && !clear)
            && (free ==> forall k | FirstOurs(cs, i.managed, k) :: d.action == DeleteOld(cs[k].id))
            && (d.action.Issue? <==> ready && BudgetOf(i).Free?)
            && (d.state.Failed? <==>
                  || (exists k :: FirstInSlot(cs, i.boundID, k) && !Ours(i.managed, cs[k]))
                  || (ready && BudgetOf(i).Waiting?))
            && (d.state.Issuing? <==> clear && Running(i.tasks))
            && (d.state.Exhausted? <==> ready && BudgetOf(i).Spent?)
            && !d.state.Bound? && !d.state.Unset?
  {
    hide ManagedMatches, Ours;
    var cs := i.certificates;
    RunningIff(i.tasks);
    SearchOurs(cs, i.managed);
    if i.boundID.Some? {
      SearchSlot(cs, i.boundID.value);
      var occupant := First(cs, OccupantNotLE(i.boundID.value));
      if occupant.Some? { OursIff(i.managed, occupant.value); }
    }
  }

  /** With one listed: the first is bound; the marker is filled in once it is. */
  lemma LetsEncryptBinds(i: Inputs, k: nat)
    requires i.mode.LetsEncrypt? && FirstLE(i.certificates, k)
    ensures var d, c := Decide(i), i.certificates[k];
            if i.boundID == Some(c.id)
            then d.action.Nothing? && d.state.Bound?
                 && d.managed == (if i.managed.Some? then i.managed
                                  else Some(Marker(Some(c.id), Some(c.typ), Some(c.cn), Some(c.expiresAt))))
            else d.action == Bind(c.id) && d.state.Pending? && d.managed == i.managed
  {
    var m := FirstIndex(i.certificates, LetsEncryptType);
    assert m == k;
  }

  // ---- custom ------------------------------------------------------------------------------------

  /** Nothing of the desired identity is listed: it is uploaded, once per declaration when that failed. */
  lemma CustomUploads(i: Inputs)
    requires i.mode.Custom?
    requires i.desired.Some? ==> forall c | c in i.certificates :: !Carries(c, i.desired.value)
    ensures var d, again := Decide(i), i.budgetKey == i.prevBudgetKey && i.prevState.Failed?;
            && d.action == (if i.desired.None? || again then Nothing else Upload)
            && d.state == (if i.desired.None? || again then Failed else Pending)
            && d.managed == i.managed
  {
    if i.desired.Some? { SearchCarrying(i.certificates, i.desired.value); }
  }

  /**
   The first certificate of the desired identity is bound; then the old one the marker names goes, then other copies.
   */
  lemma CustomBinds(i: Inputs, k: nat)
    requires i.mode.Custom? && i.desired.Some? && FirstCarrying(i.certificates, i.desired.value, k)
    ensures var d, cs, c := Decide(i), i.certificates, i.certificates[k];
            var own := Some(Marker(Some(c.id), Some(c.typ), Some(c.cn), Some(c.expiresAt)));
            var m := if i.managed.None? then own else i.managed;
            var stale := m.value.id.Some? && m.value.id != Some(c.id);
            if i.boundID != Some(c.id) then d.action == Bind(c.id) && d.state.Pending? && d.managed == i.managed
            else
              && d.state.Bound? && (d.action.DeleteOld? || d.action.Nothing?)
              && (stale && !NoneOurs(cs, m) ==>
                    d.managed == m && forall x | FirstOurs(cs, m, x) :: d.action == DeleteOld(cs[x].id))
              && (!(stale && !NoneOurs(cs, m)) ==>
                    && d.managed == (if stale then own else m)
                    && (d.action.Nothing? <==> forall x | x in cs && Carries(x, i.desired.value) :: x.id == c.id)
                    && forall x | FirstCopy(cs, i.desired.value, c.id, x) :: d.action == DeleteOld(cs[x].id))
  {
    hide ManagedMatches, Ours, Carries, First;
    var d, cs, c := i.desired.value, i.certificates, i.certificates[k];
    SearchCarrying(cs, d);
    SearchOurs(cs, if i.managed.None? then Some(MarkerFor(c)) else i.managed);
    SearchCopy(cs, d, c.id);
  }

  /** The first of them, when there is one. */
  lemma {:induction false} SomeCarries(cs: seq<Certificate>, d: Identity) returns (k: int)
    requires exists c :: c in cs && Carries(c, d)
    ensures FirstCarrying(cs, d, k)
  {
    k := FirstIndex(cs, SameIdentity(d));
    forall c ensures IdentityOf(c) == d <==> Carries(c, d) { CarriesIff(c, d); }
  }

  // ---- none, and no block at all --------------------------------------------------------------------

  /** The slot is emptied, whatever is in it; then ours goes; then nothing is claimed. */
  lemma NoneClears(i: Inputs)
    requires i.mode.NoCertificate? || i.mode.Unowned?
    ensures var d, cs := Decide(i), i.certificates;
            && (i.mode.Unowned? ==> d.action.Nothing? && d.state.Unset? && d.managed == i.managed)
            && (i.mode.NoCertificate? ==>
                  && (d.action.Unbind? <==> i.boundID.Some?)
                  && (d.action.DeleteOld? <==> i.boundID.None? && !NoneOurs(cs, i.managed))
                  && (d.action.Nothing? <==> i.boundID.None? && NoneOurs(cs, i.managed))
                  && (i.boundID.None? ==> forall k | FirstOurs(cs, i.managed, k) :: d.action == DeleteOld(cs[k].id))
                  && d.state == (if d.action.Nothing? then Unset else Pending)
                  && d.managed == if d.action.Nothing? then None else i.managed)
  {
    hide ManagedMatches, Ours;
    SearchOurs(i.certificates, i.managed);
  }
}
