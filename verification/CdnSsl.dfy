/**
 The certificate state machine of the CDN reconciler: from the declared mode and what is observed to one action per pass
 and its bookkeeping.
 */
module CdnSsl {
  import opened Wrappers
  import opened Text

  /** One certificate as the upstream lists it. */
  datatype Certificate = Certificate(id: int, typ: string, cn: string, domains: seq<string>, expiresAt: string)
  datatype Task = Task(id: int, status: string)

  /** Comparable identity: subject, sorted SANs, expiry day. */
  datatype Identity = Identity(cn: string, domains: seq<string>, expiryDay: string)

  /** `status.atProvider.managedCertificate`: the certificate this object claims to own. */
  datatype Marker = Marker(id: Option<int>, typ: Option<string>, cn: Option<string>, expiresAt: Option<string>)

  datatype Mode = Unowned | NoCertificate | LetsEncrypt | Custom
  datatype State = Unset | Pending | Issuing | Bound | Failed | Exhausted
  datatype Action = Nothing | Issue | Upload | Bind(certID: int) | Unbind | DeleteOld(certID: int)

  const MAX_ISSUE_ATTEMPTS := 4
  /** Fifteen minutes, in the clock's seconds. */
  const ISSUE_SPACING := 900

  function Day(expiresAt: string): string {
    if |expiresAt| >= 10 then expiresAt[..10] else expiresAt
  }

  function IdentityOf(c: Certificate): Identity {
    Identity(c.cn, Sort(c.domains), Day(c.expiresAt))
  }

  /** Id and every recorded identity field agree; an id alone never does, ids are reused. */
  predicate ManagedMatches(m: Option<Marker>, c: Certificate) {
    && m.Some? && m.value.id == Some(c.id)
    && (m.value.typ.Some? ==> m.value.typ.value == c.typ)
    && (m.value.cn.Some? ==> m.value.cn.value == c.cn)
    && (m.value.expiresAt.Some? && |m.value.expiresAt.value| >= 10 && |c.expiresAt| >= 10 ==>
          m.value.expiresAt.value[..10] == c.expiresAt[..10])
  }

  function MarkerFor(c: Certificate): Marker {
    Marker(Some(c.id), Some(c.typ), Some(c.cn), Some(c.expiresAt))
  }

  const LE := "lets_encrypt"

  /** The searches the state machine makes over the inventory. */
  datatype Query =
    | SameIdentity(identity: Identity)
    | OtherCopy(identity: Identity, keep: int)
    | LetsEncryptType
    | OccupantNotLE(slot: int)
    | Managed(marker: Option<Marker>)
    | ManagedNotLE(marker: Option<Marker>)

  predicate Hits(q: Query, c: Certificate) {
    match q
    case SameIdentity(i) => IdentityOf(c) == i
    case OtherCopy(i, keep) => c.id != keep && IdentityOf(c) == i
    case LetsEncryptType => c.typ == LE
    case OccupantNotLE(slot) => c.id == slot && c.typ != LE
    case Managed(m) => ManagedMatches(m, c)
    case ManagedNotLE(m) => ManagedMatches(m, c) && c.typ != LE
  }

  /** The first certificate a query hits. */
  function First(certs: seq<Certificate>, q: Query): (r: Option<Certificate>)
    ensures r.Some? ==> r.value in certs && Hits(q, r.value)
    ensures r.None? ==> forall c | c in certs :: !Hits(q, c)
  {
    if |certs| == 0 then None
    else if Hits(q, certs[0]) then Some(certs[0])
    else First(certs[1..], q)
  }

  method FirstCertificate(certs: seq<Certificate>, q: Query) returns (r: Option<Certificate>)
    ensures r == First(certs, q)
  {
    for i := 0 to |certs|
      invariant First(certs, q) == First(certs[i..], q)
    {
      if Hits(q, certs[i]) { return Some(certs[i]); }
    }
    return None;
  }

  /** Some task has the highest id; the first such one is kept. */
  method LatestTask(tasks: seq<Task>) returns (latest: Option<Task>)
    ensures latest == Latest(tasks)
  {
    latest := None;
    for i := 0 to |tasks|
      invariant latest == Latest(tasks[..i])
    {
      assert tasks[..i + 1][..i] == tasks[..i];
      if latest.None? || tasks[i].id > latest.value.id { latest := Some(tasks[i]); }
    }
    assert tasks[..|tasks|] == tasks;
  }

  function Latest(tasks: seq<Task>): Option<Task> {
    if |tasks| == 0 then None
    else
      var before, last := Latest(tasks[..|tasks| - 1]), tasks[|tasks| - 1];
      if before.None? || last.id > before.value.id then Some(last) else before
  }

  lemma {:induction false} LatestIsGreatest(tasks: seq<Task>)
    ensures tasks == [] <==> Latest(tasks).None?
    ensures tasks != [] ==>
              Latest(tasks).value in tasks && forall t | t in tasks :: t.id <= Latest(tasks).value.id
  {
    if |tasks| > 0 {
      LatestIsGreatest(tasks[..|tasks| - 1]);
      assert tasks == tasks[..|tasks| - 1] + [tasks[|tasks| - 1]];
    }
  }

  datatype Inputs = Inputs(
    mode: Mode, desired: Option<Identity>, boundID: Option<int>, managed: Option<Marker>,
    certificates: seq<Certificate>, tasks: seq<Task>, domainsAttached: bool, prevState: State,
    budgetKey: string, prevBudgetKey: string, attempts: int, lastAttempt: Option<int>, now: int)

  datatype Outcome = Outcome(action: Action, state: State, attempts: int, managed: Option<Marker>)

  /** A changed declaration restarts the budget. */
  function FreshAttempts(i: Inputs): int {
    if i.budgetKey != i.prevBudgetKey then 0 else i.attempts
  }

  /** The bound certificate's housekeeping: the old managed one first, then copies. */
  function CustomBound(i: Inputs, desired: Identity, current: Certificate): Outcome {
    var attempts := FreshAttempts(i);
    var managed := if i.managed.None? then Some(MarkerFor(current)) else i.managed;
    var stale := managed.value.id.Some? && managed.value.id.value != current.id;
    var leftover := First(i.certificates, Managed(managed));
    if stale && leftover.Some? then Outcome(DeleteOld(leftover.value.id), Bound, attempts, managed)
    else
      var marker := if stale then Some(MarkerFor(current)) else managed;
      var copy := First(i.certificates, OtherCopy(desired, current.id));
      Outcome(if copy.Some? then DeleteOld(copy.value.id) else Nothing, Bound, attempts, marker)
  }

  function CustomOutcome(i: Inputs): Outcome {
    var attempts := FreshAttempts(i);
    if i.desired.None? then Outcome(Nothing, Failed, attempts, i.managed)
    else
      var found := First(i.certificates, SameIdentity(i.desired.value));
      if found.None? then
        if i.budgetKey == i.prevBudgetKey && i.prevState == Failed
        then Outcome(Nothing, Failed, attempts, i.managed)
        else Outcome(Upload, Pending, attempts, i.managed)
      else if i.boundID != Some(found.value.id)
      then Outcome(Bind(found.value.id), Pending, attempts, i.managed)
      else CustomBound(i, i.desired.value, found.value)
  }

  /** No Let's Encrypt certificate: free the slot, drop ours, then spend the budget. */
  function LetsEncryptMissing(i: Inputs): Outcome {
    var attempts := FreshAttempts(i);
    var occupant := if i.boundID.Some? then First(i.certificates, OccupantNotLE(i.boundID.value)) else None;
    if occupant.Some? then
      if ManagedMatches(i.managed, occupant.value) then Outcome(Unbind, Pending, attempts, i.managed)
      else Outcome(Nothing, Failed, attempts, i.managed)
    else
      var ours := First(i.certificates, ManagedNotLE(i.managed));
      var task := Latest(i.tasks);
      if ours.Some? then Outcome(DeleteOld(ours.value.id), Pending, attempts, i.managed)
      else if task.Some? && task.value.status == "in_progress" then Outcome(Nothing, Issuing, attempts, i.managed)
      else if !i.domainsAttached then Outcome(Nothing, Pending, attempts, i.managed)
      else if attempts >= MAX_ISSUE_ATTEMPTS then Outcome(Nothing, Exhausted, attempts, i.managed)
      else if attempts > 0 && i.lastAttempt.Some? && i.now - i.lastAttempt.value < ISSUE_SPACING
      then Outcome(Nothing, Failed, attempts, i.managed)
      else Outcome(Issue, Pending, attempts, i.managed)
  }

  function LetsEncryptOutcome(i: Inputs): Outcome {
    var attempts := FreshAttempts(i);
    var le := First(i.certificates, LetsEncryptType);
    if le.None? then LetsEncryptMissing(i)
    else if i.boundID != Some(le.value.id) then Outcome(Bind(le.value.id), Pending, attempts, i.managed)
    else Outcome(Nothing, Bound, attempts, if i.managed.None? then Some(MarkerFor(le.value)) else i.managed)
  }

  function NoneOutcome(i: Inputs): Outcome {
    var attempts := FreshAttempts(i);
    var ours := First(i.certificates, Managed(i.managed));
    if i.boundID.Some? then Outcome(Unbind, Pending, attempts, i.managed)
    else if ours.Some? then Outcome(DeleteOld(ours.value.id), Pending, attempts, i.managed)
    else Outcome(Nothing, Unset, attempts, None)
  }

  /** The action, state and bookkeeping for one observation. */
  function Decide(i: Inputs): Outcome {
    match i.mode
    case Custom => CustomOutcome(i)
    case LetsEncrypt => LetsEncryptOutcome(i)
    case NoCertificate => NoneOutcome(i)
    case Unowned => Outcome(Nothing, Unset, FreshAttempts(i), i.managed)
  }

  method ComputeCustom(i: Inputs, attempts: int) returns (out: Outcome)
    requires i.mode.Custom? && attempts == FreshAttempts(i)
    ensures out == Decide(i)
  {
    out := Outcome(Nothing, Unset, attempts, i.managed);
    if i.desired.None? { return out.(state := Failed); }
    var found := FirstCertificate(i.certificates, SameIdentity(i.desired.value));
    if found.None? {
      if i.budgetKey == i.prevBudgetKey && i.prevState == Failed { return out.(state := Failed); }
      return out.(state := Pending, action := Upload);
    }
    if i.boundID != Some(found.value.id) { return out.(state := Pending, action := Bind(found.value.id)); }
    out := out.(state := Bound);
    if out.managed.None? { out := out.(managed := Some(MarkerFor(found.value))); }
    if out.managed.value.id.Some? && out.managed.value.id.value != found.value.id {
      var leftover := FirstCertificate(i.certificates, Managed(out.managed));
      if leftover.Some? { return out.(action := DeleteOld(leftover.value.id)); }
      out := out.(managed := Some(MarkerFor(found.value)));
    }
    var copy := FirstCertificate(i.certificates, OtherCopy(i.desired.value, found.value.id));
    if copy.Some? { out := out.(action := DeleteOld(copy.value.id)); }
  }

  method ComputeLetsEncrypt(i: Inputs, attempts: int) returns (out: Outcome)
    requires i.mode.LetsEncrypt? && attempts == FreshAttempts(i)
    ensures out == Decide(i)
  {
    out := Outcome(Nothing, Unset, attempts, i.managed);
    var le := FirstCertificate(i.certificates, LetsEncryptType);
    if le.None? {
      if i.boundID.Some? {
        var occupant := FirstCertificate(i.certificates, OccupantNotLE(i.boundID.value));
        if occupant.Some? {
          if ManagedMatches(out.managed, occupant.value) { return out.(state := Pending, action := Unbind); }
          return out.(state := Failed);
        }
      }
      if out.managed.Some? {
        var ours := FirstCertificate(i.certificates, ManagedNotLE(out.managed));
        if ours.Some? { return out.(state := Pending, action := DeleteOld(ours.value.id)); }
      }
    } else {
      if i.boundID != Some(le.value.id) { return out.(state := Pending, action := Bind(le.value.id)); }
      out := out.(state := Bound);
      if out.managed.None? { out := out.(managed := Some(MarkerFor(le.value))); }
      return;
    }
    var task := LatestTask(i.tasks);
    if task.Some? && task.value.status == "in_progress" { return out.(state := Issuing); }
    if !i.domainsAttached { return out.(state := Pending); }
    if attempts >= MAX_ISSUE_ATTEMPTS { return out.(state := Exhausted); }
    if attempts > 0 && i.lastAttempt.Some? && i.now - i.lastAttempt.value < ISSUE_SPACING {
      return out.(state := Failed);
    }
    return out.(state := Pending, action := Issue);
  }

  method ComputeSSL(i: Inputs) returns (out: Outcome)
    ensures out == Decide(i)
  {
    var attempts := i.attempts;
    if i.budgetKey != i.prevBudgetKey { attempts := 0; }
    match i.mode {
      case Custom => out := ComputeCustom(i, attempts);
      case LetsEncrypt => out := ComputeLetsEncrypt(i, attempts);
      case NoCertificate =>
        out := Outcome(Nothing, Unset, attempts, i.managed);
        if i.boundID.Some? { return out.(state := Pending, action := Unbind); }
        if out.managed.Some? {
          var ours := FirstCertificate(i.certificates, Managed(out.managed));
          if ours.Some? { return out.(action := DeleteOld(ours.value.id), state := Pending); }
          out := out.(managed := None);
        }
      case Unowned => out := Outcome(Nothing, Unset, attempts, i.managed);
    }
  }

  // ---- what one decision can never do ------------------------------------------------

  /** A delete never names the certificate in the slot. */
  lemma DeleteSparesSlot(i: Inputs)
    requires Decide(i).action.DeleteOld?
    ensures i.boundID != Some(Decide(i).action.certID)
  {
  }

  /**
   The certificate a delete targets is in the inventory, and it is ours: it matches the marker on
   every recorded field, or (custom only) it is another copy of the desired certificate.
   */
  lemma DeleteTargetsOurs(i: Inputs)
    requires Decide(i).action.DeleteOld?
    ensures exists c ::
              && c in i.certificates && c.id == Decide(i).action.certID
              && (ManagedMatches(i.managed, c)
                  || (i.mode.Custom? && i.desired == Some(IdentityOf(c))))
  {
    var d := Decide(i);
    match i.mode
    case Custom =>
      var found := First(i.certificates, SameIdentity(i.desired.value)).value;
      var managed := if i.managed.None? then Some(MarkerFor(found)) else i.managed;
      var stale := managed.value.id.Some? && managed.value.id.value != found.id;
      if stale && First(i.certificates, Managed(managed)).Some? {
        var c := First(i.certificates, Managed(managed)).value;
        assert c in i.certificates && ManagedMatches(i.managed, c);
      } else {
        var c := First(i.certificates, OtherCopy(i.desired.value, found.id)).value;
        assert c in i.certificates && IdentityOf(c) == i.desired.value;
      }
    case LetsEncrypt =>
      var c := First(i.certificates, ManagedNotLE(i.managed)).value;
      assert c in i.certificates && ManagedMatches(i.managed, c);
    case NoCertificate =>
      var c := First(i.certificates, Managed(i.managed)).value;
      assert c in i.certificates && ManagedMatches(i.managed, c);
    case Unowned =>
  }

  /** No marker, or one that records every field. */
  predicate Full(m: Option<Marker>) {
    m.Some? ==> m.value.id.Some? && m.value.typ.Some? && m.value.cn.Some? && m.value.expiresAt.Some?
  }

  /** The marker names this certificate by id, type, subject and, where both carry a date, expiry day. */
  predicate Pins(m: Option<Marker>, c: Certificate) {
    && m.Some? && m.value.id == Some(c.id) && m.value.typ == Some(c.typ) && m.value.cn == Some(c.cn)
    && m.value.expiresAt.Some?
    && (|m.value.expiresAt.value| >= 10 && |c.expiresAt| >= 10 ==> Day(m.value.expiresAt.value) == Day(c.expiresAt))
  }

  lemma FullMarkerPins(m: Option<Marker>, c: Certificate)
    requires Full(m)
    ensures ManagedMatches(m, c) <==> Pins(m, c)
  {
  }

  /** A decision leaves a full marker full, and writes only full ones. */
  lemma DecisionsKeepMarkersFull(i: Inputs)
    requires Full(i.managed)
    ensures Full(Decide(i).managed)
  {
  }

  /** Custom mode fills or keeps the slot; it is never emptied. */
  lemma CustomNeverUnbinds(i: Inputs)
    requires i.mode.Custom?
    ensures !Decide(i).action.Unbind? && !Decide(i).action.Issue?
  {
  }

  /** What mirrorSSL leaves for the second evaluation in the same pass. */
  function Mirrored(i: Inputs, out: Outcome): Inputs {
    i.(managed := out.managed, prevState := out.state, prevBudgetKey := i.budgetKey, attempts := out.attempts)
  }

  lemma CustomAgree(i: Inputs)
    requires i.mode.Custom?
    ensures Decide(Mirrored(i, Decide(i))) == Decide(i)
  {
    if i.desired.Some? {
      var found := First(i.certificates, SameIdentity(i.desired.value));
      if found.Some? && i.boundID == Some(found.value.id) {
        var managed := if i.managed.None? then Some(MarkerFor(found.value)) else i.managed;
        assert Decide(i) == CustomBound(i, i.desired.value, found.value);
      }
    }
  }

  /** Observe's verdict and Update's second evaluation of the same state are the same outcome. */
  lemma ObserveAndUpdateAgree(i: Inputs)
    ensures Decide(Mirrored(i, Decide(i))) == Decide(i)
  {
    match i.mode
    case Custom => CustomAgree(i);
    case LetsEncrypt =>
    case NoCertificate =>
      assert forall c | c in i.certificates :: !ManagedMatches(None, c);
    case Unowned =>
  }
}
