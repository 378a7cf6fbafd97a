/** letsEncrypt mode converges once a certificate is listed. */
module CdnLetsEncrypt {
  import opened Wrappers
  import opened CdnSettings
  import Settings = CdnSettingsTheorems
  import opened CdnSsl
  import opened CdnReconciler
  import opened CdnConvergence

  /** The first Let's Encrypt certificate listed under the resource. */
  function Issued(w: World): Option<Certificate> {
    First(Scoped(w.account), LetsEncryptType)
  }

  /** letsEncrypt mode on a running resource with a certificate listed; the settings can be expressed in one PATCH. */
  predicate Binding(w: World, d: Declaration) {
    && d.mode.LetsEncrypt? && !w.resource.suspended && Settings.Expressible(d.settings, w.config)
    && Issued(w).Some?
  }

  /** The passes still to make: the settings write and the slot. */
  function Unfinished(w: World, d: Declaration): nat
    requires Issued(w).Some?
  {
    (if SettingsDirty(w, d) then 1 else 0) + (if Slot(w.config) != Some(Issued(w).value.id) then 1 else 0)
  }

  /** The marker a bound certificate ends with: the old one, or its own when there was none. */
  function Kept(m: Option<Marker>, c: Certificate): Option<Marker> {
    if m.None? then Some(MarkerFor(c)) else m
  }

  /** Settings agree with the declaration and the slot holds the certificate. */
  predicate BoundTo(w: World, d: Declaration, c: Certificate) {
    !SettingsDirty(w, d) && Slot(w.config) == Some(c.id) && w.ssl.Some? && w.ssl.value.state == Bound
  }

  /** What the decision is, and that mirroring it moves nothing. */
  lemma BindingDecision(w: World, d: Declaration, now: int)
    requires Binding(w, d)
    ensures var out, c := Decide(InputsOf(w, d, now)), Issued(w).value;
            var w1 := Mirror(w, d, out);
            && out.action == (if Slot(w.config) != Some(c.id) then Bind(c.id) else Nothing)
            && (out.action.Nothing? ==> out.state == Bound && out.managed == Kept(w.managed, c))
            && (!out.action.Nothing? ==> out.managed == w.managed)
            && Binding(w1, d) && Issued(w1) == Issued(w) && Unfinished(w1, d) == Unfinished(w, d)
            && Decide(InputsOf(w1, d, now)) == out
  {
    hide Dirty, Settings.Expressible, BudgetKey, Settings.DomainsAttached, Scoped, LetsEncryptMissing, CustomOutcome,
        NoneOutcome;
    var inputs := InputsOf(w, d, now);
    var out := Decide(inputs);
    ObserveAndUpdateAgree(inputs);
    assert InputsOf(Mirror(w, d, out), d, now) == Mirrored(inputs, out);
  }

  /** The write of a pass: settings first, then the slot. */
  lemma BindingWrite(w: World, d: Declaration, env: UpdateEnv)
    requires Binding(w, d) && env.reply.Accepted? && Unfinished(w, d) > 0
    ensures var w' := if SettingsDirty(w, d) then ApplySettings(w, d, env)
        else Execute(w, Bind(Issued(w).value.id), env);
            && Binding(w', d) && Issued(w') == Issued(w) && w'.managed == w.managed
            && Unfinished(w', d) == Unfinished(w, d) - 1
  {
    hide Dirty, Settings.Expressible, ApplyConfig, Scoped, WriteOf, ApplyWrite, ApplyResource;
    if SettingsDirty(w, d) {
      var w' := ApplySettings(w, d, env);
      Settings.OnePatchConvergesIff(d.settings, w.resource, w.config, d.secrets, env.echoToken);
      Settings.UndeclaredUntouched(d.settings, w.resource, w.config, d.secrets, env.echoToken);
      CleanIsExpressible(d.settings, w'.resource, w'.config, d.secrets);
    } else {
      SlotLeavesSettings(d.settings, w.resource, w.config, d.secrets, Some(Issued(w).value.id));
    }
  }

  /**
   A pass is idle exactly when nothing is unfinished; any other pass takes exactly one off. The marker is filled in when
   there was none and the slot is right, and is otherwise left alone.
   */
  lemma BindingCountsDown(w: World, d: Declaration, r: Round)
    requires Binding(w, d)
    ensures var w', c := Pass(w, d, r), Issued(w).value;
            && (Idle(w, d, r) <==> Unfinished(w, d) == 0) && (Idle(w, d, r) ==> BoundTo(w', d, c))
            && (!Idle(w, d, r) ==> Binding(w', d) && Issued(w') == Some(c) && Unfinished(w', d) == Unfinished(w, d) - 1)
            && w'.managed == if Slot(w.config) == Some(c.id) then Kept(w.managed, c) else w.managed
  {
    hide Dirty, Settings.Expressible, BudgetKey, Decide, ApplySettings, Execute, Scoped, Kept;
    var w0 := HonourRetry(w, true);
    BindingDecision(w0, d, r.now);
    var out := Decide(InputsOf(w0, d, r.now));
    var w1 := Mirror(w0, d, out);
    assert ObserveStep(w, d, ObserveOk(r)).0 == w1;
    if !Idle(w, d, r) {
      BindingDecision(w1, d, r.now);
      BindingWrite(w1, d, UpdateOk(r));
    }
  }

  lemma KeptTwice(m: Option<Marker>, c: Certificate)
    ensures Kept(Kept(m, c), c) == Kept(m, c)
  {
  }

  /**
   With a certificate listed the loop writes in exactly `Unfinished` passes, then idles with it bound. The marker ends
   on it exactly when there was none or it already named it; any other marker is kept.
   */
  lemma {:induction false} LetsEncryptConverges(w: World, d: Declaration, rounds: seq<Round>, last: Round)
    requires Binding(w, d) && |rounds| == Unfinished(w, d)
    ensures var c, end := Issued(w).value, Pass(Passes(w, d, rounds), d, last);
            && Idle(Passes(w, d, rounds), d, last) && BoundTo(end, d, c) && end.managed == Kept(w.managed, c)
            && (end.managed.value.id == Some(c.id) <==> w.managed.None? || w.managed.value.id == Some(c.id))
    decreases rounds
  {
    hide Idle, Pass, BoundTo, Dirty, Settings.Expressible, Scoped;
    if |rounds| == 0 {
      BindingCountsDown(w, d, last);
    } else {
      BindingCountsDown(w, d, rounds[0]);
      LetsEncryptConverges(Pass(w, d, rounds[0]), d, rounds[1..], last);
      KeptTwice(w.managed, Issued(w).value);
    }
  }
}
