/** What one pass reads, writes and keeps. */
module CdnPasses {
  import opened Wrappers
  import opened Text
  import opened CdnSettings
  import SettingsTheorems = CdnSettingsTheorems
  import opened CdnSsl
  import opened CdnReconciler

  // ---- Observe -------------------------------------------------------------------------

  /** The pass gets as far as the certificates. */
  predicate Engaged(w: World, d: Declaration, secretsOk: bool) {
    !w.resource.suspended && secretsOk && !d.mode.Unowned?
  }

  /** The status an Observe decides on: a requested retry restarts the attempts and forgets when the last one was. */
  function Restarted(w: World): Option<SslStatus> {
    if !w.retryRequested then w.ssl
    else match w.ssl
         case None => Some(SslStatus(None, Unset, Some(0), None))
         case Some(s) => Some(SslStatus(s.budgetKey, s.state, Some(0), None))
  }

  /**
   An Observe never touches the upstream. It fails exactly on unresolved secrets, a retry annotation that cannot be
   removed or a failing list; else it is up to date exactly when suspended, or when the settings are clean and no
   certificate action is due.
   */
  lemma ObserveVerdictIff(w: World, d: Declaration, env: ObserveEnv)
    ensures var (w1, v) := ObserveStep(w, d, env);
            var engaged := Engaged(w, d, env.secretsOk);
            var due := engaged && !Decide(InputsOf(w.(ssl := Restarted(w)), d, env.now)).action.Nothing?;
            && w1.resource == w.resource && w1.config == w.config && w1.account == w.account && w1.tasks == w.tasks
            && (v.Error? <==>
                  || (!w.resource.suspended && !env.secretsOk)
                  || (engaged && ((w.retryRequested && !env.annotationOk) || !env.listsOk)))
            && (v.UpToDate? <==>
                  || w.resource.suspended
                  || (!v.Error? && !Dirty(d.settings, w.resource, w.config, d.secrets) && !due))
  {
    hide Dirty, Decide, BudgetKey;
    assert InputsOf(HonourRetry(w, env.annotationOk), d, env.now) == InputsOf(w.(ssl := Restarted(w)), d, env.now);
  }

  /** An engaged Observe honours a retry first and, unless it fails, mirrors its decision; no other one writes. */
  lemma ObserveMirrors(w: World, d: Declaration, env: ObserveEnv)
    ensures var (w1, v) := ObserveStep(w, d, env);
            var restarted := Restarted(w);
            var out := Decide(InputsOf(w.(ssl := restarted), d, env.now));
            if !Engaged(w, d, env.secretsOk) then w1 == w
            else
              && w1.retryRequested == (w.retryRequested && !env.annotationOk)
              && (v.Error? ==> w1.ssl == restarted && w1.managed == w.managed)
              && (!v.Error? ==>
                    && w1.managed == out.managed
                    && w1.ssl == Some(SslStatus(Some(BudgetKey(d)), out.state, Some(out.attempts),
                                                if restarted.Some? then restarted.value.lastAttempt else None)))
  {
    hide Dirty, Decide, BudgetKey;
    assert InputsOf(HonourRetry(w, env.annotationOk), d, env.now) == InputsOf(w.(ssl := Restarted(w)), d, env.now);
  }

  /** The decision sees the whole account in custom mode, else what is listed under the resource, in order. */
  lemma InputsAre(w: World, d: Declaration, now: int)
    ensures var i := InputsOf(w, d, now);
            && i.mode == d.mode && i.desired == d.desired && i.managed == w.managed && i.tasks == w.tasks
            && i.now == now
            && i.boundID == (if w.config.security.Some? then w.config.security.value.certificateID else None)
            && (i.domainsAttached <==>
                  forall x | d.settings.domains.Some? && x in d.settings.domains.value ::
                    w.config.aliases.Some? && x in w.config.aliases.value)
            && i.budgetKey == BudgetKey(d)
            && (w.ssl.None? ==>
                  i.prevBudgetKey == "" && i.prevState == Unset && i.attempts == 0 && i.lastAttempt == None)
            && (w.ssl.Some? ==>
                  && i.prevState == w.ssl.value.state && i.lastAttempt == w.ssl.value.lastAttempt
                  && i.prevBudgetKey == (if w.ssl.value.budgetKey.Some? then w.ssl.value.budgetKey.value else "")
                  && i.attempts == if w.ssl.value.attempts.Some? then w.ssl.value.attempts.value else 0)
    ensures Listing(w.account, d.mode.Custom?, InputsOf(w, d, now).certificates)
  {
    hide BudgetKey;
    InventoryIs(w.account, d.mode);
  }

  /** The certificates of all account entries, or of the scoped ones, in order. */
  predicate Listing(account: seq<AccountCert>, all: bool, certs: seq<Certificate>)
    decreases account
  {
    if |account| == 0 then certs == []
    else if all || account[0].scoped then
      |certs| > 0 && certs[0] == account[0].cert && Listing(account[1..], all, certs[1..])
    else Listing(account[1..], all, certs)
  }

  lemma {:induction false} InventoryIs(account: seq<AccountCert>, mode: Mode)
    ensures Listing(account, mode.Custom?, Inventory(account, mode))
    decreases account
  {
    if |account| > 0 {
      var rest := Inventory(account[1..], mode);
      InventoryIs(account[1..], mode);
      assert [] + rest == rest && ([account[0].cert] + rest)[1..] == rest;
    }
  }

  // ---- Update ----------------------------------------------------------------------------

  /**
   An Update makes at most one write: the settings when they are dirty, else the certificate action that is due, when
   the block is declared and the lists can be read; nothing when suspended, or without the reads or secrets.
   */
  lemma UpdateWritesIff(w: World, d: Declaration, env: UpdateEnv)
    ensures var (w1, call) := UpdateStep(w, d, env);
            var readable := env.readsOk && !w.resource.suspended && env.secretsOk;
            var dirty := Dirty(d.settings, w.resource, w.config, d.secrets);
            var i := InputsOf(w, d, env.decidedAt);
            var action := Decide(i).action;
            var write := WriteOf(d.settings, w.resource, w.config, d.secrets);
            && (call.Some? <==> readable && !dirty && !d.mode.Unowned? && env.listsOk && !action.Nothing?)
            && (call.Some? ==>
                  && w1 == Execute(w, action, env) && call.value.action == action && call.value.slot == i.boundID
                  && call.value.inventory == i.certificates && call.value.marker == w.managed
                  && call.value.mode == d.mode && call.value.desired == d.desired
                  && call.value.decidedAt == env.decidedAt && call.value.stampedAt == env.stampedAt
                  && (call.value.charged <==> action.Issue? && !env.reply.TaskExists?))
            && (call.None? ==>
                  w1 == if readable && dirty && (env.reply.Accepted? || env.reply.Lost?)
                        then w.(resource := ApplyResource(w.resource, write),
                                config := ApplyWrite(w.config, write, env.echoToken))
                        else w)
  {
    hide Dirty, Decide, BudgetKey, WriteOf, ApplyWrite, Execute;
  }

  /** The write reached the upstream, whether or not its answer did. */
  predicate Landed(env: UpdateEnv) {
    env.reply == Accepted || env.reply == Lost
  }

  /** Each action's effect, by answer; what it does not name stays as it was. */
  lemma ActionsDo(w: World, action: Action, env: UpdateEnv)
    ensures var w1 := Execute(w, action, env);
            match action
            case Nothing => w1 == w
            case Upload =>
              w1 == if Landed(env) then w.(account := w.account + [AccountCert(env.uploaded, false)])
                    else if env.reply == Rejected then w.(ssl := w1.ssl) else w
            case Issue =>
              && w1 == w.(ssl := w1.ssl, tasks := w1.tasks)
              && w1.tasks == w.tasks + (if Landed(env) then [Task(env.uploaded.id, "in_progress")] else [])
            case Bind(id) => w1 == if Landed(env) then w.(config := w1.config) else w
            case Unbind => w1 == if Landed(env) then w.(config := w1.config) else w
            case DeleteOld(id) => w1 == w.(account := w1.account, managed := w1.managed)
  {
  }

  /** A slot PATCH sets or empties the slot and leaves every other setting alone. */
  lemma SlotIsSet(w: World, action: Action, env: UpdateEnv)
    requires (action.Bind? || action.Unbind?) && Landed(env)
    ensures var c := Execute(w, action, env).config;
            && c.security.Some?
            && c.security.value == ObsSecurity(w.config).(
                 certificateID := if action.Bind? then Some(action.certID) else None)
            && c == w.config.(security := c.security)
  {
  }

  /** A rejected upload is kept as a failed state; an issuance is charged unless a task exists, and always stamped. */
  lemma StatusKept(w: World, action: Action, env: UpdateEnv)
    ensures var before, after := w.ssl, Execute(w, action, env).ssl;
            var failed := action.Upload? && env.reply == Rejected;
            if !failed && !action.Issue? then after == before
            else
              && after.Some?
              && after.value.budgetKey == (if before.Some? then before.value.budgetKey else None)
              && after.value.state == (if failed then Failed else if before.Some? then before.value.state else Unset)
              && (failed && before.Some? ==>
                    && after.value.attempts == before.value.attempts
                    && after.value.lastAttempt == before.value.lastAttempt)
              && (action.Issue? ==>
                    && after.value.lastAttempt == Some(env.stampedAt)
                    && after.value.attempts ==
                       Some((if before.Some? && before.value.attempts.Some? then before.value.attempts.value else 0)
                            + if env.reply == TaskExists then 0 else 1))
  {
  }

  /**
   A delete that lands takes every entry of that id off the account and no other; the marker goes exactly when it was
   accepted and the marker names that id.
   */
  lemma DeleteRemoves(w: World, id: int, env: UpdateEnv)
    ensures var w1 := Execute(w, DeleteOld(id), env);
            && (Landed(env) ==> forall x :: multiset(w1.account)[x] == if x.cert.id == id then 0
                else multiset(w.account)[x])
            && (!Landed(env) ==> w1.account == w.account)
            && w1.managed == if env.reply == Accepted && w.managed.Some? && w.managed.value.id == Some(id) then None
               else w.managed
  {
    WithoutCertIs(w.account, id);
  }

  lemma {:induction false} WithoutCertIs(account: seq<AccountCert>, id: int)
    ensures forall x :: multiset(WithoutCert(account, id))[x] == if x.cert.id == id then 0 else multiset(account)[x]
  {
    if |account| > 0 {
      WithoutCertIs(account[1..], id);
      TailMultiset(account);
    }
  }
}
