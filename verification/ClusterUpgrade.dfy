/** Forward-only in-place upgrades of a cluster's Kubernetes version. */
module ClusterUpgrade {
  import opened Text
  import opened Versions

  /** What one reconcile did about the version. */
  datatype Verdict = NoChange | Unparseable | Downgrade | Lateral | NotInCatalog | Unconfirmed | Rejected | Upgrading

  /** How the upstream answers the PATCH: accepted, accepted with the response lost, or refused. */
  datatype Answer = Accepted | Lost | Refused

  /** The reported version, and the version an accepted upgrade is still rolling out. */
  datatype Cluster = Cluster(version: string, target: seq<string>)

  predicate AllZero(ns: seq<nat>) {
    forall i | 0 <= i < |ns| :: ns[i] == 0
  }

  method IsAllZero(ns: seq<nat>) returns (r: bool)
    ensures r == AllZero(ns)
  {
    for i := 0 to |ns|
      invariant forall j | 0 <= j < i :: ns[j] == 0
    {
      if ns[i] != 0 { return false; }
    }
    return true;
  }

  predicate NewerVersion(a: string, b: string) {
    Newer(Components(a), Components(b))
  }

  /** Same numbers up to trailing zeros, whatever the build metadata. */
  predicate SameNumbers(a: string, b: string) {
    Trim(Components(a)) == Trim(Components(b))
  }

  // ---- one reconcile -----------------------------------------------------------------------

  /** Whether the desired version may be sent, and if not, why; Upgrading means it may. */
  function Judge(desired: string, observed: string, catalog: set<string>): Verdict {
    if observed == "" || desired == observed then NoChange
    else if AllZero(Components(desired)) then Unparseable
    else if NewerVersion(desired, observed) then (if desired in catalog then Upgrading else NotInCatalog)
    else if NewerVersion(observed, desired) then Downgrade
    else Lateral
  }

  function Sent(c: Cluster, desired: string, answer: Answer): Cluster {
    if answer.Refused? then c else c.(target := [desired])
  }

  function Reconciled(c: Cluster, desired: string, catalog: set<string>, answer: Answer): Cluster {
    if Judge(desired, c.version, catalog).Upgrading? then Sent(c, desired, answer) else c
  }

  function VerdictOf(c: Cluster, desired: string, catalog: set<string>, answer: Answer): Verdict {
    var j := Judge(desired, c.version, catalog);
    if !j.Upgrading? then j
    else
      match answer
      case Accepted => Upgrading
      case Lost => Unconfirmed
      case Refused => Rejected
  }

  /** The rollout reaches its target. */
  function Finished(c: Cluster): Cluster {
    if |c.target| > 0 then Cluster(c.target[0], []) else c
  }

  class VersionReconciler {
    var version: string
    var target: seq<string>
    var handled: bool

    function State(): Cluster
      reads this
    {
      Cluster(version, target)
    }

    constructor (current: string)
      ensures State() == Cluster(current, []) && !handled
    {
      version, target, handled := current, [], false;
    }

    method Reconcile(desired: string, catalog: set<string>, answer: Answer) returns (v: Verdict)
      modifies this
      ensures State() == Reconciled(old(State()), desired, catalog, answer)
      ensures v == VerdictOf(old(State()), desired, catalog, answer) && handled == v.Upgrading?
    {
      handled := false;
      if version == "" || desired == version { return NoChange; }
      var parsed := SplitVersion(desired);
      var zero := IsAllZero(parsed);
      if zero { return Unparseable; }
      var newer := VersionNewer(desired, version);
      if !newer {
        var older := VersionNewer(version, desired);
        return if older then Downgrade else Lateral;
      }
      if desired !in catalog { return NotInCatalog; }
      if answer.Refused? { return Rejected; }
      target := [desired];
      if answer.Lost? { return Unconfirmed; }
      handled := true;
      return Upgrading;
    }

    method Finish()
      modifies this
      ensures State() == Finished(old(State())) && handled == old(handled)
    {
      if |target| > 0 { version, target := target[0], []; }
    }
  }

  // ---- what the verdict means ----------------------------------------------------------------

  /**
   Every verdict, exactly: only a newer catalog version may be sent; a version without any positive number is refused
   before it is compared.
   */
  lemma ExactlyOneVerdict(desired: string, observed: string, catalog: set<string>)
    ensures var j := Judge(desired, observed, catalog);
            var idle, zero := observed == "" || desired == observed, forall n | n in Components(desired) :: n == 0;
            && (j.NoChange? <==> idle)
            && (j.Unparseable? <==> !idle && zero)
            && (j.Upgrading? <==> observed != "" && NewerVersion(desired, observed) && desired in catalog)
            && (j.NotInCatalog? <==> observed != "" && NewerVersion(desired, observed) && desired !in catalog)
            && (j.Downgrade? <==> observed != "" && NewerVersion(observed, desired) && !zero)
            && (j.Lateral? <==> !idle && SameNumbers(desired, observed) && !zero)
  {
    hide Newer;
    var d, o := Components(desired), Components(observed);
    assert AllZero(d) <==> forall n | n in d :: n == 0 by { AllZeroIs(d); }
    Trichotomy(d, o);
    TiesAreTrailingZeros(d, o);
    OrderIsStrict(d, d);
    if Newer(d, o) { NewerIsNotZero(d, o); }
  }

  /** What a reconcile does with the upstream's answer: the target changes exactly when the PATCH gets through. */
  lemma AnswersIff(c: Cluster, desired: string, catalog: set<string>, answer: Answer)
    ensures var v := VerdictOf(c, desired, catalog, answer);
            var sendable := c.version != "" && NewerVersion(desired, c.version) && desired in catalog;
            && (v.Upgrading? <==> sendable && answer.Accepted?)
            && (v.Unconfirmed? <==> sendable && answer.Lost?)
            && (v.Rejected? <==> sendable && answer.Refused?)
            && (!sendable ==> v == Judge(desired, c.version, catalog))
            && Reconciled(c, desired, catalog, answer) ==
               if sendable && !answer.Refused? then Cluster(c.version, [desired]) else c
  {
    hide NewerVersion;
    ExactlyOneVerdict(desired, c.version, catalog);
  }

  lemma AllZeroIs(ns: seq<nat>)
    ensures AllZero(ns) <==> forall n | n in ns :: n == 0
  {
    if !AllZero(ns) {
      var i :| 0 <= i < |ns| && ns[i] != 0;
      assert ns[i] in ns;
    }
  }

  /** A change of build metadata alone is always lateral, never sent. */
  lemma BuildChangeIsLateral(core: string, b1: string, b2: string, catalog: set<string>)
    requires Free(core, '+') && b1 != b2 && !AllZero(Components(core))
    ensures Judge(core + "+" + b1, core + "+" + b2, catalog) == Lateral
  {
    BuildIgnored(core, b1);
    BuildIgnored(core, b2);
    OrderIsStrict(Components(core), Components(core));
    assert (core + "+" + b1)[|core| + 1..] == b1 && (core + "+" + b2)[|core| + 1..] == b2;
  }

  // ---- whole runs ------------------------------------------------------------------------------

  /** A spec edit with its reconcile, or the upstream finishing a rollout. */
  datatype Event = Edit(desired: string, catalog: set<string>, answer: Answer) | Finish

  function Step(c: Cluster, e: Event): Cluster {
    match e
    case Edit(d, catalog, answer) => Reconciled(c, d, catalog, answer)
    case Finish => Finished(c)
  }

  function After(c: Cluster, run: seq<Event>): Cluster
    decreases run
  {
    if |run| == 0 then c else After(Step(c, run[0]), run[1..])
  }

  /** Whatever is rolling out is newer than what is running. */
  predicate Forward(c: Cluster) {
    |c.target| > 0 ==> NewerVersion(c.target[0], c.version)
  }

  lemma StepForward(c: Cluster, e: Event)
    requires Forward(c)
    ensures Forward(Step(c, e))
    ensures Step(c, e).version == c.version || NewerVersion(Step(c, e).version, c.version)
  {
    if e.Edit? { OnlyNewerSent(e.desired, c.version, e.catalog); }
  }

  lemma OnlyNewerSent(desired: string, observed: string, catalog: set<string>)
    ensures Judge(desired, observed, catalog).Upgrading? ==> NewerVersion(desired, observed)
  {
  }

  /** Over every run of spec edits and rollouts the cluster stays where it was or is strictly newer. */
  lemma {:induction false} OnlyEverNewer(c: Cluster, run: seq<Event>)
    requires Forward(c)
    ensures Forward(After(c, run))
    ensures After(c, run).version == c.version || NewerVersion(After(c, run).version, c.version)
    decreases run
  {
    if |run| > 0 {
      var d := Step(c, run[0]);
      StepForward(c, run[0]);
      OnlyEverNewer(d, run[1..]);
      var e := After(d, run[1..]);
      if d.version != c.version && e.version != d.version {
        NewerTransitive(Components(e.version), Components(d.version), Components(c.version));
      }
    }
  }

  /** A version left behind never comes back. */
  lemma NeverReturns(c: Cluster, run: seq<Event>, more: seq<Event>)
    requires Forward(c) && After(c, run).version != c.version
    ensures After(After(c, run), more).version != c.version
  {
    OnlyEverNewer(c, run);
    var d := After(c, run);
    OnlyEverNewer(d, more);
    var e := After(d, more);
    OrderIsStrict(Components(d.version), Components(c.version));
    if e.version != d.version {
      NewerTransitive(Components(e.version), Components(d.version), Components(c.version));
      OrderIsStrict(Components(c.version), Components(c.version));
    }
  }

  /** An edit of the run declared this version, in its own catalog and newer than what then ran, and got through. */
  predicate CameFrom(c: Cluster, run: seq<Event>, v: string) {
    exists k | 0 <= k < |run| ::
      && run[k].Edit? && run[k].desired == v && v in run[k].catalog && !run[k].answer.Refused?
      && NewerVersion(v, After(c, run[..k]).version)
  }

  lemma LaterStill(c: Cluster, run: seq<Event>, v: string)
    requires |run| > 0 && CameFrom(Step(c, run[0]), run[1..], v)
    ensures CameFrom(c, run, v)
  {
    hide NewerVersion, Step;
    var rest, d := run[1..], Step(c, run[0]);
    var k :| 0 <= k < |rest| && rest[k].Edit? && rest[k].desired == v && v in rest[k].catalog
      && !rest[k].answer.Refused? && NewerVersion(v, After(d, rest[..k]).version);
    assert run[..k + 1][1..] == rest[..k] && run[k + 1] == rest[k];
    assert After(c, run[..k + 1]) == After(d, rest[..k]);
  }

  /** Over every run, whatever is rolling out or running and was not so before came from an edit that allowed it. */
  lemma {:induction false} OnlyFromCatalog(c: Cluster, run: seq<Event>)
    ensures var e := After(c, run);
            && (e.version == c.version || e.version in c.target || CameFrom(c, run, e.version))
            && forall v | v in e.target :: v in c.target || CameFrom(c, run, v)
    decreases run
  {
    hide CameFrom, NewerVersion;
    if |run| > 0 {
      var d, e := Step(c, run[0]), After(c, run);
      OnlyFromCatalog(d, run[1..]);
      forall v | CameFrom(d, run[1..], v) ensures CameFrom(c, run, v) { LaterStill(c, run, v); }
      forall v | v in d.target && v !in c.target ensures CameFrom(c, run, v) { SentNow(c, run, v); }
    }
  }

  lemma SentNow(c: Cluster, run: seq<Event>, v: string)
    requires |run| > 0 && v in Step(c, run[0]).target && v !in c.target
    ensures CameFrom(c, run, v)
  {
    ExactlyOneVerdict(v, c.version, run[0].catalog);
    assert After(c, run[..0]) == c;
  }

  /** A newer catalog version whose PATCH gets through is reached, and then nothing is left to do. */
  lemma UpgradeConverges(c: Cluster, desired: string, catalog: set<string>, answer: Answer)
    requires c.version != "" && NewerVersion(desired, c.version) && desired in catalog && !answer.Refused?
    ensures Finished(Reconciled(c, desired, catalog, answer)) == Cluster(desired, [])
    ensures forall again :: Reconciled(Cluster(desired, []), desired, catalog, again) == Cluster(desired, [])
  {
    OrderIsStrict(Components(desired), Components(desired));
    NewerIsNotZero(Components(desired), Components(c.version));
  }

  lemma NewerIsNotZero(a: seq<nat>, b: seq<nat>)
    requires Newer(a, b)
    ensures !AllZero(a)
  {
    var i :| 0 <= i < |a| && NewerAt(a, b, i);
    assert a[i] != 0;
  }

  /** While a rollout runs the comparison is with the old version, so an edit can replace the target by an older one. */
  lemma TargetCanStepBack(c: Cluster, d1: string, d2: string, catalog: set<string>)
    requires c.version != "" && {d1, d2} <= catalog
    requires NewerVersion(d1, d2) && NewerVersion(d2, c.version)
    ensures Reconciled(Reconciled(c, d1, catalog, Accepted), d2, catalog, Accepted).target == [d2]
  {
    OrderIsStrict(Components(d2), Components(d2));
    NewerIsNotZero(Components(d1), Components(d2));
    NewerIsNotZero(Components(d2), Components(c.version));
    NewerTransitive(Components(d1), Components(d2), Components(c.version));
    OrderIsStrict(Components(d1), Components(d1));
  }
}
