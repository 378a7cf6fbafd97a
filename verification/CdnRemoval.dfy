/** Mode none converges in an exact number of passes. */
module CdnRemoval {
  import opened Wrappers
  import opened Text
  import opened CdnSettings
  import Settings = CdnSettingsTheorems
  import opened CdnSsl
  import opened CdnReconciler
  import opened CdnConvergence

  /** Mode none on a running resource; the settings can be expressed in one PATCH. */
  predicate Removing(w: World, d: Declaration) {
    d.mode.NoCertificate? && !w.resource.suspended && Settings.Expressible(d.settings, w.config)
  }

  /** A certificate listed under the resource that the marker names. */
  function Ours(w: World): Option<Certificate> {
    First(Scoped(w.account), Managed(w.managed))
  }

  /** The passes still to make: the settings write, the slot, the one certificate of the marker. */
  function Remaining(w: World, d: Declaration): nat {
    (if SettingsDirty(w, d) then 1 else 0) + (if Slot(w.config).Some? then 1 else 0) + (if Ours(w).Some? then 1 else 0)
  }

  /** Settings agree with the declaration, the slot is empty and nothing is claimed. */
  predicate Removed(w: World, d: Declaration) {
    !SettingsDirty(w, d) && Slot(w.config).None? && w.managed.None? && w.ssl.Some? && w.ssl.value.state == Unset
  }

  lemma NothingClaimed(certs: seq<Certificate>)
    ensures First(certs, Managed(None)).None?
  {
  }

  /** What the decision is, and that mirroring it moves nothing. */
  lemma RemovalDecision(w: World, d: Declaration, now: int)
    requires Removing(w, d)
    ensures var out := Decide(InputsOf(w, d, now));
            var w1 := Mirror(w, d, out);
            && out.action == (if Slot(w.config).Some? then Unbind else if Ours(w).Some?
                then DeleteOld(Ours(w).value.id) else Nothing)
            && (out.action.Nothing? ==> out.state == Unset && out.managed.None?)
                && (!out.action.Nothing? ==> out.managed == w.managed)
            && Removing(w1, d) && Remaining(w1, d) == Remaining(w, d) && Decide(InputsOf(w1, d, now)) == out
  {
    hide Dirty, Settings.Expressible, BudgetKey, Settings.DomainsAttached, Scoped, LetsEncryptOutcome, CustomOutcome;
    var inputs := InputsOf(w, d, now);
    var out := Decide(inputs);
    ObserveAndUpdateAgree(inputs);
    NothingClaimed(Scoped(w.account));
    assert InputsOf(Mirror(w, d, out), d, now) == Mirrored(inputs, out);
  }

  /** The write of a pass: settings first, then the slot, then the certificate, which takes its marker along. */
  lemma RemovalWrite(w: World, d: Declaration, env: UpdateEnv)
    requires Removing(w, d) && env.reply.Accepted? && Remaining(w, d) > 0
    ensures var w' := if SettingsDirty(w, d) then ApplySettings(w, d, env)
                      else Execute(w, if Slot(w.config).Some? then Unbind else DeleteOld(Ours(w).value.id), env);
            Removing(w', d) && Remaining(w', d) == Remaining(w, d) - 1
  {
    hide Dirty, Settings.Expressible, ApplyConfig, WithoutCert, Scoped, WriteOf, ApplyWrite, ApplyResource;
    if SettingsDirty(w, d) {
      var w' := ApplySettings(w, d, env);
      Settings.OnePatchConvergesIff(d.settings, w.resource, w.config, d.secrets, env.echoToken);
      Settings.UndeclaredUntouched(d.settings, w.resource, w.config, d.secrets, env.echoToken);
      CleanIsExpressible(d.settings, w'.resource, w'.config, d.secrets);
    } else if Slot(w.config).Some? {
      SlotLeavesSettings(d.settings, w.resource, w.config, d.secrets, None);
    } else {
      NothingClaimed(Scoped(Execute(w, DeleteOld(Ours(w).value.id), env).account));
    }
  }

  /** A pass is idle exactly when nothing remains, and then all is removed; any other pass takes exactly one off. */
  lemma RemovalCountsDown(w: World, d: Declaration, r: Round)
    requires Removing(w, d)
    ensures Idle(w, d, r) <==> Remaining(w, d) == 0
    ensures Idle(w, d, r) ==> Removed(Pass(w, d, r), d)
    ensures !Idle(w, d, r) ==> Removing(Pass(w, d, r), d) && Remaining(Pass(w, d, r), d) == Remaining(w, d) - 1
  {
    hide Dirty, Settings.Expressible, BudgetKey, Decide, ApplySettings, Execute, Scoped;
    var w0 := HonourRetry(w, true);
    RemovalDecision(w0, d, r.now);
    var out := Decide(InputsOf(w0, d, r.now));
    var w1 := Mirror(w0, d, out);
    assert ObserveStep(w, d, ObserveOk(r)).0 == w1;
    if !Idle(w, d, r) {
      RemovalDecision(w1, d, r.now);
      RemovalWrite(w1, d, UpdateOk(r));
    }
  }

  /** The loop writes in exactly `Remaining` passes, then idles with nothing bound and nothing claimed. */
  lemma {:induction false} RemovalConverges(w: World, d: Declaration, rounds: seq<Round>, last: Round)
    requires Removing(w, d) && |rounds| == Remaining(w, d)
    ensures Idle(Passes(w, d, rounds), d, last)
    ensures Removed(Pass(Passes(w, d, rounds), d, last), d)
    decreases rounds
  {
    hide Idle, Pass, Remaining, Removing, Removed;
    if |rounds| == 0 {
      RemovalCountsDown(w, d, last);
    } else {
      RemovalCountsDown(w, d, rounds[0]);
      RemovalConverges(Pass(w, d, rounds[0]), d, rounds[1..], last);
    }
  }
}
