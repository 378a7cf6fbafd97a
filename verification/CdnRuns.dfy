/** What holds over every run of the CDN reconciler, whatever else happens to the upstream. */
module CdnRuns {
  import opened Wrappers
  import opened CdnSettings
  import opened CdnSsl
  import opened CdnDecisions
  import opened CdnReconciler

  /** The part of the world other actors may change at any moment. */
  datatype Upstream = Upstream(resource: Resource, config: Config, account: seq<AccountCert>, tasks: seq<Task>)

  /**
   One reconcile pass: the declaration it reads, the upstream found by Observe and, if Observe asks for
   an Update, the upstream found by that; or an operator adding the retry annotation.
   */
  datatype Step =
    | Pass(d: Declaration, before: Upstream, observe: ObserveEnv, between: Upstream, update: UpdateEnv)
    | RequestRetry

  function Meet(w: World, u: Upstream): World {
    w.(resource := u.resource, config := u.config, account := u.account, tasks := u.tasks)
  }

  function Observed(w: World, s: Step): (World, Verdict)
    requires s.Pass?
  {
    ObserveStep(Meet(w, s.before), s.d, s.observe)
  }

  function RunStep(w: World, s: Step): (World, Option<Call>) {
    match s
    case RequestRetry => (w.(retryRequested := true), None)
    case Pass(d, before, observe, between, update) =>
      var (w1, verdict) := Observed(w, s);
      if verdict.Stale? then UpdateStep(Meet(w1, between), d, update) else (w1, None)
  }

  function After(w: World, run: seq<Step>): World
    decreases run
  {
    if |run| == 0 then w else After(RunStep(w, run[0]).0, run[1..])
  }

  function Calls(w: World, run: seq<Step>): seq<Call>
    decreases run
  {
    if |run| == 0 then []
    else
      var (w1, call) := RunStep(w, run[0]);
      (if call.Some? then [call.value] else []) + Calls(w1, run[1..])
  }

  // ---- deletes ---------------------------------------------------------------------

  /** The target is not in the slot, and it is ours by marker or (custom) by identity. */
  predicate SafeDelete(c: Call) {
    c.action.DeleteOld? ==>
      && c.slot != Some(c.action.certID)
      && exists cert ::
           && cert in c.inventory && cert.id == c.action.certID
           && (ManagedMatches(c.marker, cert) || (c.mode.Custom? && c.desired == Some(IdentityOf(cert))))
  }

  lemma StepCallIsDecision(w: World, s: Step)
    ensures var call := RunStep(w, s).1;
            call.Some? ==>
              && s.Pass?
              && var w2 := Meet(Observed(w, s).0, s.between);
              && var i := InputsOf(w2, s.d, s.update.decidedAt);
              && call == Some(CallOf(w2, s.d, Decide(i).action, s.update))
              && i.boundID == call.value.slot && i.certificates == call.value.inventory
              && i.managed == call.value.marker && i.desired == call.value.desired && i.mode == call.value.mode
              && !SettingsDirty(w2, s.d) && Observed(w, s).1.Stale? && !s.d.mode.Unowned?
              && RunStep(w, s).0 == Execute(w2, Decide(i).action, s.update)
  {
  }

  /** Over every run, no certificate delete targets the bound certificate or a stranger's. */
  lemma {:induction false} DeletesAreSafe(w: World, run: seq<Step>)
    ensures forall c | c in Calls(w, run) :: SafeDelete(c)
    decreases run
  {
    if |run| > 0 {
      var (w1, call) := RunStep(w, run[0]);
      DeletesAreSafe(w1, run[1..]);
      if call.Some? && call.value.action.DeleteOld? {
        StepCallIsDecision(w, run[0]);
        var i := InputsOf(Meet(Observed(w, run[0]).0, run[0].between), run[0].d, run[0].update.decidedAt);
        DeleteSparesSlot(i);
        DeleteTargetsOurs(i);
        assert SafeDelete(call.value);
      }
    }
  }

  /**
   The target matches every recorded field of the marker, or (custom) it is another copy of the desired certificate.
   */
  predicate PinnedDelete(c: Call) {
    c.action.DeleteOld? ==>
      && Full(c.marker)
      && exists cert ::
           && cert in c.inventory && cert.id == c.action.certID
           && (Pins(c.marker, cert) || (c.mode.Custom? && c.desired == Some(IdentityOf(cert))))
  }

  lemma StepKeepsMarkerFull(w: World, s: Step)
    requires Full(w.managed)
    ensures var (w1, call) := RunStep(w, s);
            Full(w1.managed) && (call.Some? ==> PinnedDelete(call.value))
  {
    hide Dirty, Decide, BudgetKey, ApplyWrite, WriteOf, ManagedMatches, Pins, Inventory, ApplyConfig;
    if s.Pass? {
      DecisionsKeepMarkersFull(InputsOf(HonourRetry(Meet(w, s.before), s.observe.annotationOk), s.d, s.observe.now));
      var i := InputsOf(Meet(Observed(w, s).0, s.between), s.d, s.update.decidedAt);
      if RunStep(w, s).1.Some? && Decide(i).action.DeleteOld? {
        DeleteTargetsOurs(i);
        var c :| c in i.certificates && c.id == Decide(i).action.certID &&
                 (ManagedMatches(i.managed, c) || (i.mode.Custom? && i.desired == Some(IdentityOf(c))));
        FullMarkerPins(i.managed, c);
      }
    }
  }

  /**
   Over every run from no marker or a full one, the marker stays full, so a delete outside custom mode hits a
   certificate that agrees with it on id, type, subject and expiry day.
   */
  lemma {:induction false} DeletesArePinned(w: World, run: seq<Step>)
    requires Full(w.managed)
    ensures Full(After(w, run).managed) && forall c | c in Calls(w, run) :: PinnedDelete(c)
    decreases run
  {
    hide RunStep, PinnedDelete, Full;
    if |run| > 0 {
      StepKeepsMarkerFull(w, run[0]);
      DeletesArePinned(RunStep(w, run[0]).0, run[1..]);
    }
  }

  // ---- every other call ---------------------------------------------------------------

  /** What must be listed, seen in the slot and named by the marker for a call other than a delete. */
  ghost predicate Warranted(c: Call) {
    match c.action
    case Upload =>
      c.mode.Custom? && c.desired.Some? && forall x | x in c.inventory :: !Carries(x, c.desired.value)
    case Bind(id) =>
      && c.slot != Some(id)
      && exists k ::
           && (if c.mode.Custom? then c.desired.Some? && FirstCarrying(c.inventory, c.desired.value, k)
               else c.mode.LetsEncrypt? && FirstLE(c.inventory, k))
           && c.inventory[k].id == id
    case Unbind =>
      || (c.mode.NoCertificate? && c.slot.Some?)
      || (c.mode.LetsEncrypt? && NoneLE(c.inventory)
          && exists k :: FirstInSlot(c.inventory, c.slot, k) && Ours(c.marker, c.inventory[k]))
    case Issue =>
      c.mode.LetsEncrypt? && NoneLE(c.inventory) && SlotFree(c.inventory, c.slot) && NoneOurs(c.inventory, c.marker)
    case Nothing => false
    case DeleteOld(_) => true
  }

  lemma DecisionWarranted(i: Inputs, c: Call)
    requires c.action == Decide(i).action && !c.action.Nothing?
    requires i.boundID == c.slot && i.certificates == c.inventory && i.managed == c.marker
    requires i.desired == c.desired && i.mode == c.mode
    ensures Warranted(c)
  {
    hide Ours, Carries, NoneOurs, SlotFree, FirstInSlot, Decide;
    var cs := i.certificates;
    match i.mode
    case Custom =>
      if i.desired.Some? && exists x :: x in cs && Carries(x, i.desired.value) {
        var k := SomeCarries(cs, i.desired.value);
        CustomBinds(i, k);
        CustomNeverUnbinds(i);
      } else {
        CustomUploads(i);
      }
    case LetsEncrypt =>
      if NoneLE(cs) {
        LetsEncryptIssues(i);
      } else {
        var k := FirstIndex(cs, LetsEncryptType);
        LetsEncryptBinds(i, k);
      }
    case NoCertificate => NoneClears(i);
    case Unowned => NoneClears(i);
  }

  /**
   Over every run, letsEncrypt mode unbinds only a certificate of ours and issues only when none is listed, the slot
   holds none and none of ours is left; a bind takes the first matching certificate, an upload one that is not listed.
   */
  lemma {:induction false} CallsAreWarranted(w: World, run: seq<Step>)
    ensures forall c | c in Calls(w, run) :: Warranted(c)
    decreases run
  {
    hide Warranted, RunStep, Observed;
    if |run| > 0 {
      var (w1, call) := RunStep(w, run[0]);
      CallsAreWarranted(w1, run[1..]);
      if call.Some? {
        StepCallIsDecision(w, run[0]);
        var i := InputsOf(Meet(Observed(w, run[0]).0, run[0].between), run[0].d, run[0].update.decidedAt);
        CallMade(w, run[0]);
        DecisionWarranted(i, call.value);
      }
    }
  }

  lemma CallMade(w: World, s: Step)
    requires RunStep(w, s).1.Some?
    ensures !RunStep(w, s).1.value.action.Nothing?
  {
  }

  // ---- the certificate slot in custom mode ------------------------------------------

  /** Every pass declares custom mode and no other actor empties the slot. */
  predicate CustomRun(w: World, run: seq<Step>)
    decreases run
  {
    |run| == 0 ||
    (&& (run[0].Pass? ==>
           && run[0].d.mode.Custom?
           && (Slot(w.config).Some? ==> Slot(run[0].before.config).Some? && Slot(run[0].between.config).Some?))
     && CustomRun(RunStep(w, run[0]).0, run[1..]))
  }

  lemma SettingsKeepSlot(w: World, d: Declaration, env: UpdateEnv)
    ensures Slot(ApplySettings(w, d, env).config) == Slot(w.config)
  {
  }

  lemma CustomUpdateKeepsSlot(w: World, d: Declaration, env: UpdateEnv)
    requires d.mode.Custom? && Slot(w.config).Some?
    ensures Slot(UpdateStep(w, d, env).0.config).Some?
  {
    hide Dirty, Decide, BudgetKey, ApplySettings, Certs, WithoutCert;
    SettingsKeepSlot(w, d, env);
    CustomNeverUnbinds(InputsOf(w, d, env.decidedAt));
  }

  /** Custom-mode runs never empty an occupied slot. */
  lemma {:induction false} CustomKeepsSlot(w: World, run: seq<Step>)
    requires CustomRun(w, run) && Slot(w.config).Some?
    ensures Slot(After(w, run).config).Some?
    decreases run
  {
    hide Slot, UpdateStep, Dirty, Decide, BudgetKey;
    if |run| > 0 {
      var s := run[0];
      if s.Pass? {
        CustomUpdateKeepsSlot(Meet(Observed(w, s).0, s.between), s.d, s.update);
      }
      CustomKeepsSlot(RunStep(w, s).0, run[1..]);
    }
  }

  // ---- the issuance budget ------------------------------------------------------------

  /** The pass restarts the budget: its declaration's key differs, or a retry was requested. */
  predicate Resets(w: World, s: Step) {
    && s.Pass? && !s.before.resource.suspended && s.observe.secretsOk && !s.d.mode.Unowned?
    && (w.retryRequested ||
        (s.observe.listsOk && w.ssl.GetOr(NO_STATUS).budgetKey.GetOr("") != BudgetKey(s.d)))
  }

  function Charge(call: Option<Call>): nat {
    if call.Some? && call.value.charged then 1 else 0
  }

  predicate InBudget(w: World) {
    0 <= Attempts(w) <= MAX_ISSUE_ATTEMPTS
  }

  /** What a decision needs before it spends an attempt. */
  lemma IssueNeedsBudget(i: Inputs)
    ensures Decide(i).attempts == FreshAttempts(i)
    ensures Decide(i).action.Issue? ==>
              && FreshAttempts(i) < MAX_ISSUE_ATTEMPTS
              && (FreshAttempts(i) > 0 && i.lastAttempt.Some? ==> i.now - i.lastAttempt.value >= ISSUE_SPACING)
  {
  }

  lemma ExecuteBudget(w: World, action: Action, env: UpdateEnv)
    ensures var w' := Execute(w, action, env);
            && Attempts(w') == Attempts(w) + (if action.Issue? && !env.reply.TaskExists? then 1 else 0)
            && LastAttempt(w') == if action.Issue? then Some(env.stampedAt) else LastAttempt(w)
  {
  }

  lemma ObserveBudget(w: World, s: Step)
    requires s.Pass?
    ensures var (w1, verdict) := Observed(w, s);
            && Attempts(w1) == (if Resets(w, s) then 0 else Attempts(w))
            && (!Resets(w, s) ==> LastAttempt(w1) == LastAttempt(w))
            && (verdict.Stale? && !s.d.mode.Unowned? ==>
                  w1.ssl.GetOr(NO_STATUS).budgetKey.GetOr("") == BudgetKey(s.d))
  {
    var met := Meet(w, s.before);
    if !met.resource.suspended && s.observe.secretsOk && !s.d.mode.Unowned? {
      var w1 := HonourRetry(met, s.observe.annotationOk);
      IssueNeedsBudget(InputsOf(w1, s.d, s.observe.now));
    }
  }

  function LastAttempt(w: World): Option<int> {
    w.ssl.GetOr(NO_STATUS).lastAttempt
  }

  /**
   The count after a step is the count before (zero after a reset) plus the charged issuance, if any; an issuance
   without a reset waits out the spacing and leaves its own stamp.
   */
  lemma StepBudget(w: World, s: Step)
    requires InBudget(w)
    ensures var (w', call) := RunStep(w, s);
            && InBudget(w')
            && Attempts(w') == (if Resets(w, s) then 0 else Attempts(w)) + Charge(call)
            && (call.Some? && call.value.action.Issue? ==> call.value.attemptsAfter == Attempts(w'))
            && (!Resets(w, s) ==>
                  if call.Some? && call.value.action.Issue? then
                    && s.Pass? && call.value.stampedAt == s.update.stampedAt
                    && call.value.decidedAt == s.update.decidedAt
                    && LastAttempt(w') == Some(call.value.stampedAt)
                    && (Attempts(w) > 0 && LastAttempt(w).Some? ==>
                          call.value.decidedAt >= LastAttempt(w).value + ISSUE_SPACING)
                  else LastAttempt(w') == LastAttempt(w))
  {
    hide UpdateStep, ObserveStep, BudgetKey;
    if s.Pass? {
      ObserveBudget(w, s);
      var (w1, verdict) := Observed(w, s);
      if verdict.Stale? { UpdateBudget(Meet(w1, s.between), s.d, s.update); }
    }
  }

  lemma UpdateBudget(w: World, d: Declaration, env: UpdateEnv)
    requires InBudget(w)
    requires !d.mode.Unowned? ==> w.ssl.GetOr(NO_STATUS).budgetKey.GetOr("") == BudgetKey(d)
    ensures var (w', call) := UpdateStep(w, d, env);
            && InBudget(w')
            && Attempts(w') == Attempts(w) + Charge(call)
            && (if call.Some? && call.value.action.Issue? then
                  && call.value.attemptsAfter == Attempts(w')
                  && call.value.stampedAt == env.stampedAt && call.value.decidedAt == env.decidedAt
                  && LastAttempt(w') == Some(env.stampedAt)
                  && (Attempts(w) > 0 && LastAttempt(w).Some? ==>
                        env.decidedAt >= LastAttempt(w).value + ISSUE_SPACING)
                else LastAttempt(w') == LastAttempt(w))
  {
    var i := InputsOf(w, d, env.decidedAt);
    IssueNeedsBudget(i);
    ExecuteBudget(w, Decide(i).action, env);
  }

  /** Over every run the recorded number of attempts stays between zero and four. */
  lemma {:induction false} BudgetInvariant(w: World, run: seq<Step>)
    requires InBudget(w)
    ensures InBudget(After(w, run))
    decreases run
  {
    if |run| > 0 {
      StepBudget(w, run[0]);
      BudgetInvariant(RunStep(w, run[0]).0, run[1..]);
    }
  }

  /** A run between two budget resets. */
  predicate OneWindow(w: World, run: seq<Step>)
    decreases run
  {
    |run| == 0 || (!Resets(w, run[0]) && OneWindow(RunStep(w, run[0]).0, run[1..]))
  }

  function Charges(calls: seq<Call>): nat {
    if |calls| == 0 then 0 else (if calls[0].charged then 1 else 0) + Charges(calls[1..])
  }

  /** Between two resets the charged issuances are counted exactly, so there are at most four. */
  lemma {:induction false} WindowCharges(w: World, run: seq<Step>)
    requires InBudget(w) && OneWindow(w, run)
    ensures Attempts(After(w, run)) == Attempts(w) + Charges(Calls(w, run))
    ensures Charges(Calls(w, run)) <= MAX_ISSUE_ATTEMPTS - Attempts(w)
    decreases run
  {
    if |run| > 0 {
      StepBudget(w, run[0]);
      var (w1, call) := RunStep(w, run[0]);
      WindowCharges(w1, run[1..]);
      BudgetInvariant(w1, run[1..]);
      if call.Some? { assert Calls(w, run) == [call.value] + Calls(w1, run[1..]); }
      else { assert Calls(w, run) == Calls(w1, run[1..]); }
    }
  }

  /** The clock does not run backwards inside a pass. */
  predicate Clocked(run: seq<Step>) {
    forall s | s in run && s.Pass? :: s.update.decidedAt <= s.update.stampedAt
  }

  /** With a charged attempt on record, every later issuance of the window waits out the spacing. */
  lemma {:induction false} IssuesWait(w: World, run: seq<Step>, t: int)
    requires InBudget(w) && OneWindow(w, run) && Clocked(run)
    requires Attempts(w) > 0 && LastAttempt(w).Some? && t <= LastAttempt(w).value
    ensures forall c | c in Calls(w, run) && c.action.Issue? :: c.decidedAt >= t + ISSUE_SPACING
    decreases run
  {
    if |run| > 0 {
      StepBudget(w, run[0]);
      assert run[0] in run;
      IssuesWait(RunStep(w, run[0]).0, run[1..], t);
    }
  }

  /**
   Within a window, an issuance that leaves the count above zero is followed by the next one, charged or
   not, no sooner than fifteen minutes later.
   */
  lemma {:induction false} IssueSpacing(w: World, run: seq<Step>, j: nat, k: nat)
    requires InBudget(w) && OneWindow(w, run) && Clocked(run)
    requires j < k < |Calls(w, run)|
    requires Calls(w, run)[j].action.Issue? && Calls(w, run)[k].action.Issue?
    requires Calls(w, run)[j].attemptsAfter > 0
    ensures Calls(w, run)[k].decidedAt >= Calls(w, run)[j].stampedAt + ISSUE_SPACING
    decreases run
  {
    hide RunStep, Resets, InBudget, LastAttempt, Attempts;
    StepBudget(w, run[0]);
    var (w1, call) := RunStep(w, run[0]);
    var rest := Calls(w1, run[1..]);
    assert Clocked(run[1..]);
    if call.None? {
      assert Calls(w, run) == rest;
      IssueSpacing(w1, run[1..], j, k);
    } else {
      assert Calls(w, run) == [call.value] + rest;
      if j == 0 {
        assert Calls(w, run)[k] == rest[k - 1] && rest[k - 1] in rest;
        IssuesWait(w1, run[1..], call.value.stampedAt);
      } else {
        IssueSpacing(w1, run[1..], j - 1, k - 1);
      }
    }
  }

  // ---- rejected uploads ------------------------------------------------------------------

  predicate Absent(u: Upstream, identity: Identity) {
    First(Inventory(u.account, Custom), SameIdentity(identity)).None?
  }

  /** The declaration keeps its key and no certificate of the identity shows up. */
  predicate Unchanged(run: seq<Step>, key: string, identity: Identity) {
    forall s | s in run && s.Pass? ::
      && s.d.mode.Custom? && s.d.desired == Some(identity) && BudgetKey(s.d) == key
      && Absent(s.before, identity) && Absent(s.between, identity)
  }

  predicate RejectedFor(w: World, key: string) {
    w.ssl.Some? && w.ssl.value.state == Failed && w.ssl.value.budgetKey == Some(key)
  }

  /** A terminal rejection is recorded under the key it was sent for. */
  lemma RejectionIsRecorded(w: World, s: Step)
    requires s.Pass? && s.d.mode.Custom? && s.update.reply.Rejected?
    requires RunStep(w, s).1.Some? && RunStep(w, s).1.value.action.Upload?
    ensures RejectedFor(RunStep(w, s).0, BudgetKey(s.d))
  {
    StepCallIsDecision(w, s);
    ObserveBudget(w, s);
  }

  /** Once rejected, the upload is not sent again while the key stands and no match appears. */
  lemma {:induction false} RejectedUploadNotResent(w: World, run: seq<Step>, key: string, identity: Identity)
    requires RejectedFor(w, key) && Unchanged(run, key, identity)
    ensures forall c | c in Calls(w, run) :: !c.action.Upload?
    ensures RejectedFor(After(w, run), key)
    decreases run
  {
    if |run| > 0 {
      hide Dirty, BudgetKey, WriteOf, ApplyWrite, LetsEncryptOutcome, NoneOutcome, CustomBound, Certs;
      var s := run[0];
      assert s in run;
      if s.Pass? {
        var w1 := Observed(w, s).0;
        assert RejectedFor(w1, key);
        var w2 := Meet(w1, s.between);
        assert Decide(InputsOf(w2, s.d, s.update.decidedAt)).action.Nothing?;
      }
      assert forall x | x in run[1..] :: x in run;
      RejectedUploadNotResent(RunStep(w, s).0, run[1..], key, identity);
    }
  }
}
