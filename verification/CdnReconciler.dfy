/**
 The CDN reconciler: Observe and Update over an upstream that holds settings, one certificate slot,
 the account's certificates and its issuance tasks.
 */
module CdnReconciler {
  import opened Wrappers
  import opened Text
  import opened CdnSettings
  import SettingsTheorems = CdnSettingsTheorems
  import opened CdnSsl

  /** A certificate of the account; `scoped` ones are listed under this resource. */
  datatype AccountCert = AccountCert(cert: Certificate, scoped: bool)

  datatype SslStatus = SslStatus(budgetKey: Option<string>, state: State, attempts: Option<int>,
                                 lastAttempt: Option<int>)
  const NO_STATUS := SslStatus(None, Unset, None, None)

  /** Upstream, then the object's status and its retry annotation. */
  datatype World = World(
    resource: Resource, config: Config, account: seq<AccountCert>, tasks: seq<Task>,
    ssl: Option<SslStatus>, managed: Option<Marker>, retryRequested: bool)

  /** The declaration with its secrets resolved. */
  datatype Declaration = Declaration(settings: Spec, mode: Mode, desired: Option<Identity>, secrets: Secrets)

  datatype Verdict = UpToDate | Stale | Error

  /** What a pass meets: which reads succeed, and the clock. */
  datatype ObserveEnv = ObserveEnv(secretsOk: bool, annotationOk: bool, listsOk: bool, now: int)

  /**
   How the upstream answers the one write of a pass. `Lost` applied it but reported a transient error,
   `Refused` did neither, `Rejected` is terminal, `TaskExists` is the issuance conflict.
   */
  datatype Reply = Accepted | Lost | Refused | Rejected | TaskExists
  datatype UpdateEnv = UpdateEnv(readsOk: bool, secretsOk: bool, listsOk: bool, reply: Reply,
                                 decidedAt: int, stampedAt: int, uploaded: Certificate, echoToken: bool)

  function Slot(config: Config): Option<int> {
    ObsSecurity(config).certificateID
  }

  function Certs(account: seq<AccountCert>): seq<Certificate> {
    if |account| == 0 then [] else [account[0].cert] + Certs(account[1..])
  }

  function Scoped(account: seq<AccountCert>): seq<Certificate> {
    if |account| == 0 then []
    else (if account[0].scoped then [account[0].cert] else []) + Scoped(account[1..])
  }

  /** Uploads are account-wide, everything else is listed per resource. */
  function Inventory(account: seq<AccountCert>, mode: Mode): seq<Certificate> {
    if mode.Custom? then Certs(account) else Scoped(account)
  }

  function ModeName(mode: Mode): string {
    match mode
    case Unowned => ""
    case NoCertificate => "none"
    case LetsEncrypt => "letsEncrypt"
    case Custom => "custom"
  }

  /** The declaration text whose change restarts the issuance budget. */
  function BudgetKey(d: Declaration): string {
    Join(Sort(d.settings.domains.GetOr([])), ',') + (ModeText(d.mode) + IdentityText(d.desired))
  }

  function ModeText(mode: Mode): string {
    if mode.Unowned? then "" else "|" + ModeName(mode)
  }

  function IdentityText(desired: Option<Identity>): string {
    match desired
    case None => ""
    case Some(i) => "|" + i.cn + "|" + Join(i.domains, ',') + "|" + i.expiryDay
  }

  function InputsOf(w: World, d: Declaration, now: int): Inputs {
    var s := w.ssl.GetOr(NO_STATUS);
    Inputs(d.mode, d.desired, Slot(w.config), w.managed, Inventory(w.account, d.mode), w.tasks,
           SettingsTheorems.DomainsAttached(d.settings.domains.GetOr([]), w.config), s.state,
           BudgetKey(d), s.budgetKey.GetOr(""), s.attempts.GetOr(0), s.lastAttempt, now)
  }

  function Mirror(w: World, d: Declaration, out: Outcome): World {
    var s := w.ssl.GetOr(NO_STATUS);
    w.(ssl := Some(SslStatus(Some(BudgetKey(d)), out.state, Some(out.attempts), s.lastAttempt)),
       managed := out.managed)
  }

  /** The retry annotation zeroes the budget before anything else is read. */
  function HonourRetry(w: World, annotationOk: bool): World {
    if !w.retryRequested then w
    else w.(ssl := Some(w.ssl.GetOr(NO_STATUS).(attempts := Some(0), lastAttempt := None)),
            retryRequested := !annotationOk)
  }

  predicate SettingsDirty(w: World, d: Declaration) {
    Dirty(d.settings, w.resource, w.config, d.secrets)
  }

  function ObserveStep(w: World, d: Declaration, env: ObserveEnv): (World, Verdict) {
    if w.resource.suspended then (w, UpToDate)
    else if !env.secretsOk then (w, Error)
    else if d.mode.Unowned? then (w, if SettingsDirty(w, d) then Stale else UpToDate)
    else
      var w1 := HonourRetry(w, env.annotationOk);
      if w1.retryRequested || !env.listsOk then (w1, Error)
      else
        var out := Decide(InputsOf(w1, d, env.now));
        (Mirror(w1, d, out), if out.action.Nothing? && !SettingsDirty(w1, d) then UpToDate else Stale)
  }

  /** The slot PATCH: certificate_id and nothing else. */
  function SetSlot(w: World, id: Option<int>): World {
    var patch := EMPTY_CONFIG_PATCH.(security := Some(SecurityPatch(None, Some(id), None)));
    w.(config := ApplyConfig(w.config, patch, true))
  }

  function WithoutCert(account: seq<AccountCert>, id: int): seq<AccountCert> {
    if |account| == 0 then []
    else (if account[0].cert.id == id then [] else [account[0]]) + WithoutCert(account[1..], id)
  }

  predicate Applied(reply: Reply) {
    reply.Accepted? || reply.Lost?
  }

  function ApplySettings(w: World, d: Declaration, env: UpdateEnv): World {
    var write := WriteOf(d.settings, w.resource, w.config, d.secrets);
    if Applied(env.reply)
    then w.(resource := ApplyResource(w.resource, write), config := ApplyWrite(w.config, write, env.echoToken))
    else w
  }

  /** executeSSLAction: the upstream effect and the bookkeeping on the object. */
  function Execute(w: World, action: Action, env: UpdateEnv): World {
    var s := w.ssl.GetOr(NO_STATUS);
    match action
    case Nothing => w
    case Upload =>
      if Applied(env.reply) then w.(account := w.account + [AccountCert(env.uploaded, false)])
      else if env.reply.Rejected? then w.(ssl := Some(s.(state := Failed)))
      else w
    case Issue =>
      var prev := s.attempts.GetOr(0);
      var charged := w.(ssl := Some(s.(attempts := Some(if env.reply.TaskExists? then prev else prev + 1),
                                       lastAttempt := Some(env.stampedAt))));
      if Applied(env.reply) then charged.(tasks := w.tasks + [Task(env.uploaded.id, "in_progress")]) else charged
    case Bind(id) => if Applied(env.reply) then SetSlot(w, Some(id)) else w
    case Unbind => if Applied(env.reply) then SetSlot(w, None) else w
    case DeleteOld(id) =>
      var gone := if Applied(env.reply) then w.(account := WithoutCert(w.account, id)) else w;
      if env.reply.Accepted? && w.managed.Some? && w.managed.value.id == Some(id)
      then gone.(managed := None) else gone
  }

  /** The certificate call a pass makes, with what it saw when it decided. */
  datatype Call = Call(action: Action, slot: Option<int>, inventory: seq<Certificate>, desired: Option<Identity>,
                       mode: Mode, marker: Option<Marker>, decidedAt: int, stampedAt: int,
                       charged: bool, attemptsAfter: int)

  function Attempts(w: World): int {
    w.ssl.GetOr(NO_STATUS).attempts.GetOr(0)
  }

  function CallOf(w: World, d: Declaration, action: Action, env: UpdateEnv): Call {
    Call(action, Slot(w.config), Inventory(w.account, d.mode), d.desired, d.mode, w.managed,
         env.decidedAt, env.stampedAt, action.Issue? && !env.reply.TaskExists?,
         Attempts(Execute(w, action, env)))
  }

  /** Settings first; at most one certificate action, and only once settings are clean. */
  function UpdateStep(w: World, d: Declaration, env: UpdateEnv): (World, Option<Call>) {
    if !env.readsOk || w.resource.suspended || !env.secretsOk then (w, None)
    else if SettingsDirty(w, d) then (ApplySettings(w, d, env), None)
    else if d.mode.Unowned? || !env.listsOk then (w, None)
    else
      var out := Decide(InputsOf(w, d, env.decidedAt));
      if out.action.Nothing? then (w, None)
      else (Execute(w, out.action, env), Some(CallOf(w, d, out.action, env)))
  }

  // ---- the controller object -----------------------------------------------------------

  class CdnController {
    var resource: Resource
    var config: Config
    var account: seq<AccountCert>
    var tasks: seq<Task>
    var ssl: Option<SslStatus>
    var managed: Option<Marker>
    var retryRequested: bool

    constructor (w: World)
      ensures State() == w
    {
      resource, config, account, tasks := w.resource, w.config, w.account, w.tasks;
      ssl, managed, retryRequested := w.ssl, w.managed, w.retryRequested;
    }

    function State(): World
      reads this
    {
      World(resource, config, account, tasks, ssl, managed, retryRequested)
    }

    method ListCertificates(mode: Mode) returns (certs: seq<Certificate>)
      ensures certs == Inventory(account, mode)
    {
      certs := [];
      var i := |account|;
      while i > 0
        invariant 0 <= i <= |account|
        invariant certs == Inventory(account[i..], mode)
      {
        i := i - 1;
        assert account[i..][0] == account[i] && account[i..][1..] == account[i + 1..];
        if mode.Custom? || account[i].scoped { certs := [account[i].cert] + certs; }
      }
      assert account[0..] == account;
    }

    method SslInputs(d: Declaration, now: int) returns (i: Inputs)
      ensures i == InputsOf(State(), d, now)
    {
      var certs := ListCertificates(d.mode);
      var attached := SettingsTheorems.DomainsAttachedCheck(d.settings.domains.GetOr([]), config);
      var s := ssl.GetOr(NO_STATUS);
      i := Inputs(d.mode, d.desired, Slot(config), managed, certs, tasks, attached, s.state,
                  BudgetKey(d), s.budgetKey.GetOr(""), s.attempts.GetOr(0), s.lastAttempt, now);
    }

    method Observe(d: Declaration, env: ObserveEnv) returns (verdict: Verdict)
      modifies this
      ensures (State(), verdict) == ObserveStep(old(State()), d, env)
    {
      if resource.suspended { return UpToDate; }
      if !env.secretsOk { return Error; }
      var sslDirty := false;
      if !d.mode.Unowned? {
        if retryRequested {
          ssl := Some(ssl.GetOr(NO_STATUS).(attempts := Some(0), lastAttempt := None));
          if !env.annotationOk { return Error; }
          retryRequested := false;
        }
        if !env.listsOk { return Error; }
        var inputs := SslInputs(d, env.now);
        var out := ComputeSSL(inputs);
        ssl := Some(SslStatus(Some(BudgetKey(d)), out.state, Some(out.attempts), ssl.GetOr(NO_STATUS).lastAttempt));
        managed := out.managed;
        sslDirty := !out.action.Nothing?;
      }
      var _, dirty := SettingsTheorems.BuildDesiredWrite(d.settings, resource, config, d.secrets);
      verdict := if dirty || sslDirty then Stale else UpToDate;
    }

    method Update(d: Declaration, env: UpdateEnv) returns (call: Option<Call>)
      modifies this
      ensures (State(), call) == UpdateStep(old(State()), d, env)
    {
      if !env.readsOk || resource.suspended || !env.secretsOk { return None; }
      var write, dirty := SettingsTheorems.BuildDesiredWrite(d.settings, resource, config, d.secrets);
      if dirty {
        if Applied(env.reply) {
          resource := ApplyResource(resource, write);
          config := ApplyWrite(config, write, env.echoToken);
        }
        return None;
      }
      if d.mode.Unowned? || !env.listsOk { return None; }
      var inputs := SslInputs(d, env.decidedAt);
      var out := ComputeSSL(inputs);
      if out.action.Nothing? { return None; }
      call := Some(CallOf(State(), d, out.action, env));
      ExecuteSSLAction(out.action, env);
    }

    method ExecuteSSLAction(action: Action, env: UpdateEnv)
      modifies this
      ensures State() == Execute(old(State()), action, env)
    {
      match action
      case Nothing =>
      case Upload =>
        if Applied(env.reply) { account := account + [AccountCert(env.uploaded, false)]; }
        else if env.reply.Rejected? { ssl := Some(ssl.GetOr(NO_STATUS).(state := Failed)); }
      case Issue =>
        var prev := ssl.GetOr(NO_STATUS).attempts.GetOr(0);
        ssl := Some(ssl.GetOr(NO_STATUS).(attempts := Some(prev + 1), lastAttempt := Some(env.stampedAt)));
        if Applied(env.reply) { tasks := tasks + [Task(env.uploaded.id, "in_progress")]; }
        if env.reply.TaskExists? { ssl := Some(ssl.value.(attempts := Some(prev))); }
      case Bind(id) =>
        if Applied(env.reply) { PatchSlot(Some(id)); }
      case Unbind =>
        if Applied(env.reply) { PatchSlot(None); }
      case DeleteOld(id) =>
        if Applied(env.reply) { RemoveCertificate(id); }
        if env.reply.Accepted? && managed.Some? && managed.value.id == Some(id) { managed := None; }
    }

    method PatchSlot(id: Option<int>)
      modifies this`config
      ensures State() == SetSlot(old(State()), id)
    {
      var patch := EMPTY_CONFIG_PATCH.(security := Some(SecurityPatch(None, Some(id), None)));
      config := ApplyConfig(config, patch, true);
    }

    method RemoveCertificate(id: int)
      modifies this`account
      ensures account == WithoutCert(old(account), id)
    {
      var kept, i := [], |account|;
      while i > 0
        invariant 0 <= i <= |account|
        invariant kept == WithoutCert(account[i..], id)
      {
        i := i - 1;
        assert account[i..][0] == account[i] && account[i..][1..] == account[i + 1..];
        if account[i].cert.id != id { kept := [account[i]] + kept; }
      }
      assert account[0..] == account;
      account := kept;
    }
  }
}
