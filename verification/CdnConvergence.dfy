/** Custom mode converges: every non-idle pass brings the world exactly one step closer. */
module CdnConvergence {
  import opened Wrappers
  import opened Text
  import opened CdnSettings
  import Settings = CdnSettingsTheorems
  import opened CdnSsl
  import opened CdnReconciler

  /** A pass whose reads succeed and whose write is accepted. */
  datatype Round = Round(now: int, uploaded: Certificate, echoToken: bool)

  function ObserveOk(r: Round): ObserveEnv {
    ObserveEnv(true, true, true, r.now)
  }

  function UpdateOk(r: Round): UpdateEnv {
    UpdateEnv(true, true, true, Accepted, r.now, r.now, r.uploaded, r.echoToken)
  }

  function Pass(w: World, d: Declaration, r: Round): World {
    var (w1, verdict) := ObserveStep(w, d, ObserveOk(r));
    if verdict.Stale? then UpdateStep(w1, d, UpdateOk(r)).0 else w1
  }

  predicate Idle(w: World, d: Declaration, r: Round) {
    ObserveStep(w, d, ObserveOk(r)).1.UpToDate?
  }

  // ---- the distance ---------------------------------------------------------------

  function Match(w: World, i: Identity): Option<Certificate> {
    First(Certs(w.account), SameIdentity(i))
  }

  /** 2: nothing to bind, 1: something to bind, 0: bound. */
  function Phase(w: World, i: Identity): nat {
    var found := Match(w, i);
    if found.None? then 2 else if Slot(w.config) != Some(found.value.id) then 1 else 0
  }

  /** To be removed: other copies of the identity, and the certificate of a marker naming another id. */
  predicate Removable(c: Certificate, keep: Option<int>, i: Identity, marker: Option<Marker>) {
    keep != Some(c.id) &&
    (IdentityOf(c) == i || (marker.Some? && marker.value.id != keep && ManagedMatches(marker, c)))
  }

  function CountRemovable(certs: seq<Certificate>, keep: Option<int>, i: Identity, marker: Option<Marker>): nat {
    if |certs| == 0 then 0
    else (if Removable(certs[0], keep, i, marker) then 1 else 0) + CountRemovable(certs[1..], keep, i, marker)
  }

  function Leftovers(w: World, i: Identity): nat {
    var found := Match(w, i);
    CountRemovable(Certs(w.account), if found.Some? then Some(found.value.id) else None, i, w.managed)
  }

  /** The number of passes still to make: the settings write, the slot's phase, the deletions. */
  function Distance(w: World, d: Declaration): nat
    requires d.desired.Some?
  {
    (if SettingsDirty(w, d) then 1 else 0) + Phase(w, d.desired.value) + Leftovers(w, d.desired.value)
  }

  // ---- where it starts ---------------------------------------------------------------

  predicate DistinctIds(certs: seq<Certificate>) {
    forall i, j | 0 <= i < j < |certs| :: certs[i].id != certs[j].id
  }

  /** The upload of this identity was not terminally rejected under this key. */
  predicate MayUpload(w: World, d: Declaration) {
    var s := w.ssl.GetOr(NO_STATUS);
    s.state != Failed || s.budgetKey.GetOr("") != BudgetKey(d)
  }

  predicate Ready(w: World, d: Declaration) {
    && d.mode.Custom? && d.desired.Some? && !w.resource.suspended
    && Settings.Expressible(d.settings, w.config)
    && DistinctIds(Certs(w.account))
    && (w.managed.Some? ==> w.managed.value.id.Some?)
    && (Match(w, d.desired.value).None? ==> MayUpload(w, d))
  }

  /** The platform parses the uploaded pair to the declared identity and gives it an unused id. */
  predicate Honest(r: Round, w: World, d: Declaration) {
    && d.desired == Some(IdentityOf(r.uploaded)) && Slot(w.config) != Some(r.uploaded.id)
    && forall c | c in Certs(w.account) :: c.id != r.uploaded.id
  }

  /** Settings agree with the declaration and the slot holds the one certificate of the identity. */
  predicate Settled(w: World, d: Declaration)
    requires d.desired.Some?
  {
    && !SettingsDirty(w, d)
    && exists c ::
         && c in Certs(w.account) && Slot(w.config) == Some(c.id) && IdentityOf(c) == d.desired.value
         && (forall o | o in Certs(w.account) && o.id != c.id :: IdentityOf(o) != d.desired.value)
         && w.managed.Some? && w.managed.value.id == Some(c.id)
         && w.ssl.Some? && w.ssl.value.state == Bound
  }

  // ---- list facts ----------------------------------------------------------------------

  lemma {:induction false} CertsAppend(a: seq<AccountCert>, x: AccountCert)
    ensures Certs(a + [x]) == Certs(a) + [x.cert]
  {
    if |a| > 0 {
      assert (a + [x])[1..] == a[1..] + [x];
      CertsAppend(a[1..], x);
    }
  }

  lemma {:induction false} FirstAppend(certs: seq<Certificate>, c: Certificate, q: Query)
    ensures First(certs + [c], q) ==
            if First(certs, q).Some? then First(certs, q) else if Hits(q, c) then Some(c) else None
  {
    if |certs| > 0 {
      assert (certs + [c])[1..] == certs[1..] + [c];
      FirstAppend(certs[1..], c, q);
    } else {
      assert certs + [c] == [c];
    }
  }

  lemma {:induction false} CountAppend(certs: seq<Certificate>, c: Certificate, keep: Option<int>, i: Identity,
      m: Option<Marker>)
    ensures CountRemovable(certs + [c], keep, i, m) ==
            CountRemovable(certs, keep, i, m) + if Removable(c, keep, i, m) then 1 else 0
  {
    if |certs| > 0 {
      assert (certs + [c])[1..] == certs[1..] + [c];
      CountAppend(certs[1..], c, keep, i, m);
    } else {
      assert certs + [c] == [c];
      assert [c][1..] == [];
    }
  }

  lemma {:induction false} CountSame(certs: seq<Certificate>, k1: Option<int>, m1: Option<Marker>,
                                     k2: Option<int>, m2: Option<Marker>, i: Identity)
    requires forall c | c in certs :: Removable(c, k1, i, m1) == Removable(c, k2, i, m2)
    ensures CountRemovable(certs, k1, i, m1) == CountRemovable(certs, k2, i, m2)
  {
    if |certs| > 0 {
      assert forall c | c in certs[1..] :: c in certs;
      CountSame(certs[1..], k1, m1, k2, m2, i);
    }
  }

  lemma {:induction false} CountZero(certs: seq<Certificate>, keep: Option<int>, m: Option<Marker>, i: Identity)
    ensures CountRemovable(certs, keep, i, m) == 0 <==> forall c | c in certs :: !Removable(c, keep, i, m)
  {
    if |certs| > 0 {
      assert forall c :: c in certs <==> c == certs[0] || c in certs[1..];
      CountZero(certs[1..], keep, m, i);
    }
  }

  function DropId(certs: seq<Certificate>, id: int): seq<Certificate> {
    if |certs| == 0 then []
    else if certs[0].id == id then DropId(certs[1..], id)
    else [certs[0]] + DropId(certs[1..], id)
  }

  lemma {:induction false} CertsDrop(account: seq<AccountCert>, id: int)
    ensures Certs(WithoutCert(account, id)) == DropId(Certs(account), id)
  {
    if |account| > 0 {
      assert Certs(account)[1..] == Certs(account[1..]);
      CertsDrop(account[1..], id);
      var rest := WithoutCert(account[1..], id);
      assert WithoutCert(account, id) == if account[0].cert.id == id then rest else [account[0]] + rest;
      if account[0].cert.id != id {
        assert ([account[0]] + rest)[1..] == rest;
        assert Certs([account[0]] + rest) == [account[0].cert] + Certs(rest);
      }
    }
  }

  lemma {:induction false} DropMembers(certs: seq<Certificate>, id: int)
    ensures forall c :: c in DropId(certs, id) <==> c in certs && c.id != id
  {
    if |certs| > 0 {
      DropMembers(certs[1..], id);
      assert forall c :: c in certs <==> c == certs[0] || c in certs[1..];
      assert forall c :: c in [certs[0]] + DropId(certs[1..], id) <==> c == certs[0] || c in DropId(certs[1..], id);
    }
  }

  lemma {:induction false} DropDistinct(certs: seq<Certificate>, id: int)
    requires DistinctIds(certs)
    ensures DistinctIds(DropId(certs, id))
  {
    if |certs| > 0 {
      DropDistinct(certs[1..], id);
      DropMembers(certs[1..], id);
      var rest := DropId(certs[1..], id);
      forall k | 0 <= k < |rest| ensures rest[k].id != certs[0].id {
        assert rest[k] in rest;
      }
    }
  }

  lemma {:induction false} DropFirst(certs: seq<Certificate>, id: int, q: Query)
    requires First(certs, q).Some? && First(certs, q).value.id != id
    ensures First(DropId(certs, id), q) == First(certs, q)
  {
    if !Hits(q, certs[0]) {
      DropFirst(certs[1..], id, q);
      if certs[0].id != id { assert ([certs[0]] + DropId(certs[1..], id))[1..] == DropId(certs[1..], id); }
    }
  }

  lemma {:induction false} DropAbsent(certs: seq<Certificate>, id: int)
    requires forall c | c in certs :: c.id != id
    ensures DropId(certs, id) == certs
  {
    if |certs| > 0 {
      assert forall c | c in certs[1..] :: c in certs;
      DropAbsent(certs[1..], id);
    }
  }

  /** Deleting one removable certificate lowers the count by exactly one. */
  lemma {:induction false} DropCount(certs: seq<Certificate>, gone: Certificate, keep: Option<int>, i: Identity,
      m: Option<Marker>)
    requires DistinctIds(certs) && gone in certs && Removable(gone, keep, i, m)
    ensures CountRemovable(DropId(certs, gone.id), keep, i, m) == CountRemovable(certs, keep, i, m) - 1
  {
    if certs[0].id == gone.id {
      forall c | c in certs[1..] ensures c.id != gone.id {}
      DropAbsent(certs[1..], gone.id);
      assert certs[0] == gone;
    } else {
      assert gone in certs[1..];
      DropCount(certs[1..], gone, keep, i, m);
      assert ([certs[0]] + DropId(certs[1..], gone.id))[1..] == DropId(certs[1..], gone.id);
    }
  }

  // ---- Observe keeps the distance ----------------------------------------------------------

  /** The marker Observe leaves when the slot is right. */
  lemma MirroredMarker(w: World, d: Declaration, now: int)
    requires Ready(w, d)
    ensures var out := Decide(InputsOf(w, d, now));
            var w1 := Mirror(w, d, out);
            && Ready(w1, d)
            && Leftovers(w1, d.desired.value) == Leftovers(w, d.desired.value)
            && Phase(w1, d.desired.value) == Phase(w, d.desired.value)
            && Decide(InputsOf(w1, d, now)) == out
  {
    hide Dirty, BudgetKey, Certs, Settings.DomainsAttached, Settings.Expressible;
    var i := d.desired.value;
    var inputs := InputsOf(w, d, now);
    var out := Decide(inputs);
    var w1 := Mirror(w, d, out);
    ObserveAndUpdateAgree(inputs);
    assert InputsOf(w1, d, now) == Mirrored(inputs, out);
    var found := Match(w, i);
    if found.Some? && Slot(w.config) == Some(found.value.id) {
      var managed := if w.managed.None? then Some(MarkerFor(found.value)) else w.managed;
      assert out == CustomBound(inputs, i, found.value);
      var keep := Some(found.value.id);
      assert forall c | c in Certs(w.account) :: Removable(c, keep, i, w.managed) == Removable(c, keep, i, out.managed);
      CountSame(Certs(w.account), keep, w.managed, keep, out.managed, i);
    }
  }

  lemma RetryKeeps(w: World, d: Declaration, env: ObserveEnv)
    requires Ready(w, d)
    ensures Ready(HonourRetry(w, env.annotationOk), d)
    ensures Distance(HonourRetry(w, env.annotationOk), d) == Distance(w, d)
  {
  }

  // ---- each action takes one off -------------------------------------------------------------

  lemma SlotLeavesSettings(p: Spec, res: Resource, cfg: Config, sec: Secrets, id: Option<int>)
    ensures var patch := EMPTY_CONFIG_PATCH.(security := Some(SecurityPatch(None, Some(id), None)));
            var after := ApplyConfig(cfg, patch, true);
            && Slot(after) == id
            && Dirty(p, res, after, sec) == Dirty(p, res, cfg, sec)
            && Settings.Expressible(p, after) == Settings.Expressible(p, cfg)
  {
    var patch := EMPTY_CONFIG_PATCH.(security := Some(SecurityPatch(None, Some(id), None)));
    var after := ApplyConfig(cfg, patch, true);
    assert SecurityPatchOf(p.security, ObsSecurity(after), sec.tokenKey) ==
           SecurityPatchOf(p.security, ObsSecurity(cfg), sec.tokenKey);
    assert ConfigPatchOf(p, after, sec) == ConfigPatchOf(p, cfg, sec);
  }

  lemma SettingsRound(w: World, d: Declaration, env: UpdateEnv)
    requires Ready(w, d) && SettingsDirty(w, d) && env.reply.Accepted?
    ensures var w' := ApplySettings(w, d, env);
            Ready(w', d) && Distance(w', d) == Distance(w, d) - 1
  {
    Settings.OnePatchConvergesIff(d.settings, w.resource, w.config, d.secrets, env.echoToken);
    Settings.UndeclaredUntouched(d.settings, w.resource, w.config, d.secrets, env.echoToken);
    var w' := ApplySettings(w, d, env);
    CleanIsExpressible(d.settings, w'.resource, w'.config, d.secrets);
  }

  lemma CleanIsExpressible(p: Spec, res: Resource, cfg: Config, sec: Secrets)
    requires !Dirty(p, res, cfg, sec)
    ensures Settings.Expressible(p, cfg)
  {
    assert ConfigPatchOf(p, cfg, sec) == EMPTY_CONFIG_PATCH;
  }

  lemma UploadMatch(w: World, i: Identity, c: Certificate)
    requires Match(w, i).None? && IdentityOf(c) == i && forall x | x in Certs(w.account) :: x.id != c.id
    requires DistinctIds(Certs(w.account))
    ensures var w' := w.(account := w.account + [AccountCert(c, false)]);
            && Match(w', i) == Some(c) && Leftovers(w', i) == Leftovers(w, i) && DistinctIds(Certs(w'.account))
  {
    var certs := Certs(w.account);
    CertsAppend(w.account, AccountCert(c, false));
    FirstAppend(certs, c, SameIdentity(i));
    CountAppend(certs, c, Some(c.id), i, w.managed);
    forall x | x in certs ensures Removable(x, None, i, w.managed) == Removable(x, Some(c.id), i, w.managed) {
      assert !Hits(SameIdentity(i), x);
    }
    CountSame(certs, None, w.managed, Some(c.id), w.managed, i);
  }

  /** In custom mode a delete names one removable certificate of the account. */
  lemma DeleteTarget(w: World, d: Declaration, now: int) returns (gone: Certificate)
    requires Ready(w, d) && Decide(InputsOf(w, d, now)).action.DeleteOld?
    ensures Match(w, d.desired.value).Some? && Slot(w.config) == Some(Match(w, d.desired.value).value.id)
    ensures gone in Certs(w.account) && gone.id == Decide(InputsOf(w, d, now)).action.certID
    ensures gone.id != Match(w, d.desired.value).value.id
    ensures Removable(gone, Some(Match(w, d.desired.value).value.id), d.desired.value, w.managed)
  {
    hide Dirty, Settings.Expressible, BudgetKey, Settings.DomainsAttached, Certs, LetsEncryptOutcome, NoneOutcome,
        IdentityOf, DistinctIds;
    var i, inputs := d.desired.value, InputsOf(w, d, now);
    var found := Match(w, i).value;
    DeleteSparesSlot(inputs);
    assert Decide(inputs) == CustomBound(inputs, i, found);
    var managed := if w.managed.None? then Some(MarkerFor(found)) else w.managed;
    var leftover := First(inputs.certificates, Managed(managed));
    if managed.value.id != Some(found.id) && leftover.Some? {
      gone := leftover.value;
    } else {
      gone := First(inputs.certificates, OtherCopy(i, found.id)).value;
    }
  }

  /** Dropping it takes one off the count, also when the marker is cleared with it. */
  lemma DeleteCount(certs: seq<Certificate>, gone: Certificate, keep: int, i: Identity, m: Option<Marker>)
    requires DistinctIds(certs) && gone in certs && Removable(gone, Some(keep), i, m)
    ensures var after := if m.Some? && m.value.id == Some(gone.id) then None else m;
            CountRemovable(DropId(certs, gone.id), Some(keep), i, after) == CountRemovable(certs, Some(keep), i, m) - 1
  {
    var after := if m.Some? && m.value.id == Some(gone.id) then None else m;
    var rest := DropId(certs, gone.id);
    DropCount(certs, gone, Some(keep), i, m);
    DropMembers(certs, gone.id);
    forall c | c in rest ensures Removable(c, Some(keep), i, m) == Removable(c, Some(keep), i, after) {}
    CountSame(rest, Some(keep), m, Some(keep), after, i);
  }

  lemma DeletedWorld(w: World, d: Declaration, w': World, gone: Certificate)
    requires Ready(w, d) && !SettingsDirty(w, d)
    requires Match(w, d.desired.value).Some? && Slot(w.config) == Some(Match(w, d.desired.value).value.id)
    requires gone in Certs(w.account) && gone.id != Match(w, d.desired.value).value.id
    requires Removable(gone, Some(Match(w, d.desired.value).value.id), d.desired.value, w.managed)
    requires w'.resource == w.resource && w'.config == w.config
    requires Certs(w'.account) == DropId(Certs(w.account), gone.id)
    requires w'.managed == if w.managed.Some? && w.managed.value.id == Some(gone.id) then None else w.managed
    ensures Ready(w', d) && Distance(w', d) == Distance(w, d) - 1
  {
    var i, certs := d.desired.value, Certs(w.account);
    var keep := Match(w, i).value.id;
    assert Match(w', i) == Match(w, i) by { DropFirst(certs, gone.id, SameIdentity(i)); }
    assert DistinctIds(Certs(w'.account)) by { DropDistinct(certs, gone.id); }
    assert Leftovers(w', i) == Leftovers(w, i) - 1 by { DeleteCount(certs, gone, keep, i, w.managed); }
  }

  lemma ActionRound(w: World, d: Declaration, env: UpdateEnv)
    requires Ready(w, d) && !SettingsDirty(w, d) && env.reply.Accepted?
    requires Slot(w.config) != Some(env.uploaded.id)
    requires !Decide(InputsOf(w, d, env.decidedAt)).action.Nothing?
    requires d.desired == Some(IdentityOf(env.uploaded))
    requires forall c | c in Certs(w.account) :: c.id != env.uploaded.id
    ensures var w' := Execute(w, Decide(InputsOf(w, d, env.decidedAt)).action, env);
            Ready(w', d) && Distance(w', d) == Distance(w, d) - 1
  {
    var inputs := InputsOf(w, d, env.decidedAt);
    hide Dirty, Settings.Expressible, BudgetKey, Settings.DomainsAttached, Certs, IdentityOf, DistinctIds,
        CountRemovable, MayUpload, WithoutCert, ApplyConfig,
         LetsEncryptOutcome, NoneOutcome;
    CustomNeverUnbinds(inputs);
    match Decide(inputs).action
    case Upload => UploadMatch(w, d.desired.value, env.uploaded);
    case Bind(_) => SlotLeavesSettings(d.settings, w.resource, w.config, d.secrets,
        Some(Match(w, d.desired.value).value.id));
    case DeleteOld(_) =>
      var gone := DeleteTarget(w, d, env.decidedAt);
      CertsDrop(w.account, gone.id);
      DeletedWorld(w, d, Execute(w, DeleteOld(gone.id), env), gone);
  }

  /** Nothing left to do means bound, alone, and marked. */
  lemma QuietIsZero(w: World, d: Declaration, now: int)
    requires Ready(w, d)
    ensures Decide(InputsOf(w, d, now)).action.Nothing? <==>
            Phase(w, d.desired.value) == 0 && Leftovers(w, d.desired.value) == 0
  {
    hide Dirty, Settings.Expressible, BudgetKey, Settings.DomainsAttached, Certs, LetsEncryptOutcome, NoneOutcome,
        DistinctIds;
    if Phase(w, d.desired.value) == 0 {
      var i := d.desired.value;
      var keep := Some(Match(w, i).value.id);
      assert Decide(InputsOf(w, d, now)) == CustomBound(InputsOf(w, d, now), i, Match(w, i).value);
      CountZero(Certs(w.account), keep, w.managed, i);
      if !Decide(InputsOf(w, d, now)).action.Nothing? {
        var gone := DeleteTarget(w, d, now);
        assert Removable(gone, keep, i, w.managed);
      }
    }
  }

  lemma QuietIsSettled(w: World, d: Declaration, now: int)
    requires Ready(w, d) && Phase(w, d.desired.value) == 0 && Leftovers(w, d.desired.value) == 0
    requires !SettingsDirty(w, d)
    ensures Settled(Mirror(w, d, Decide(InputsOf(w, d, now))), d)
  {
    var i := d.desired.value;
    var found := Match(w, i).value;
    assert Decide(InputsOf(w, d, now)) == CustomBound(InputsOf(w, d, now), i, found);
    QuietIsZero(w, d, now);
    CountZero(Certs(w.account), Some(found.id), w.managed, i);
    forall o | o in Certs(w.account) && o.id != found.id ensures IdentityOf(o) != i {
      assert !Removable(o, Some(found.id), i, w.managed);
    }
    assert found in Certs(Mirror(w, d, Decide(InputsOf(w, d, now))).account);
  }

  // ---- the passes ---------------------------------------------------------------------------

  /**
   A pass is idle exactly at distance zero, and then everything is as declared. Any other pass takes
   exactly one off the distance.
   */
  lemma PassCountsDown(w: World, d: Declaration, r: Round)
    requires Ready(w, d) && Honest(r, w, d)
    ensures Idle(w, d, r) <==> Distance(w, d) == 0
    ensures Idle(w, d, r) ==> Settled(Pass(w, d, r), d)
    ensures !Idle(w, d, r) ==> Ready(Pass(w, d, r), d) && Distance(Pass(w, d, r), d) == Distance(w, d) - 1
  {
    var w0 := HonourRetry(w, true);
    RetryKeeps(w, d, ObserveOk(r));
    MirroredMarker(w0, d, r.now);
    QuietIsZero(w0, d, r.now);
    if Distance(w0, d) == 0 { QuietIsSettled(w0, d, r.now); }
    var out := Decide(InputsOf(w0, d, r.now));
    var w1 := Mirror(w0, d, out);
    assert ObserveStep(w, d, ObserveOk(r)).0 == w1;
    if !Idle(w, d, r) {
      if SettingsDirty(w1, d) { SettingsRound(w1, d, UpdateOk(r)); }
      else { ActionRound(w1, d, UpdateOk(r)); }
    }
  }

  function Passes(w: World, d: Declaration, rounds: seq<Round>): World
    decreases rounds
  {
    if |rounds| == 0 then w else Passes(Pass(w, d, rounds[0]), d, rounds[1..])
  }

  predicate HonestRounds(w: World, d: Declaration, rounds: seq<Round>)
    decreases rounds
  {
    |rounds| == 0 || (Honest(rounds[0], w, d) && HonestRounds(Pass(w, d, rounds[0]), d, rounds[1..]))
  }

  /** The loop writes in exactly `Distance` passes, then idles at the declared state. */
  lemma {:induction false} CustomConverges(w: World, d: Declaration, rounds: seq<Round>, last: Round)
    requires Ready(w, d) && |rounds| == Distance(w, d) && HonestRounds(w, d, rounds)
    requires Honest(last, Passes(w, d, rounds), d)
    ensures Idle(Passes(w, d, rounds), d, last)
    ensures Settled(Pass(Passes(w, d, rounds), d, last), d)
    decreases rounds
  {
    if |rounds| == 0 {
      PassCountsDown(w, d, last);
    } else {
      PassCountsDown(w, d, rounds[0]);
      CustomConverges(Pass(w, d, rounds[0]), d, rounds[1..], last);
    }
  }
}
