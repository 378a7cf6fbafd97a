/** A nodepool gets its one group, and keeps it. */
module NodepoolLiveness {
  import opened Wrappers
  import opened Text
  import opened NodepoolIdentity

  /** A group of the declared name and sizing; a variant that is not declared is not compared. */
  predicate Declared(g: Identity, want: Identity) {
    && g.name == want.name && (want.preset == 0 || g.preset == want.preset)
    && (want.configurator == 0 || g.configurator == 0 || g.configurator == want.configurator)
  }

  lemma DeclaredIs(groups: map<nat, Identity>, want: Identity)
    ensures forall id :: id in Matching(groups, want) <==> id in groups && Declared(groups[id], want)
  {
  }

  ghost predicate NoneDeclared(groups: map<nat, Identity>, want: Identity) {
    forall id | id in groups :: !Declared(groups[id], want)
  }

  ghost predicate OnlyDeclared(groups: map<nat, Identity>, want: Identity, m: nat) {
    m in groups && Declared(groups[m], want) && forall id | id in groups && Declared(groups[id], want) :: id == m
  }

  /** The create before may have gone through: its outcome is unknown or an error. */
  predicate Doubtful(s: State, a: Attempt) {
    s.unrecorded || s.failed || a.pendingSeen
  }

  lemma NoneDeclaredIs(groups: map<nat, Identity>, want: Identity)
    ensures NoneDeclared(groups, want) <==> |Matching(groups, want)| == 0
    ensures forall m: nat | OnlyDeclared(groups, want, m) :: Matching(groups, want) == {m}
    ensures |Matching(groups, want)| == 1 ==> OnlyDeclared(groups, want, Only(Matching(groups, want)))
  {
    hide Matches, Declared;
    DeclaredIs(groups, want);
    var ids := Matching(groups, want);
    if |ids| != 0 { var m :| m in ids; }
    if |ids| == 1 {
      OneElement(ids);
      assert Only(ids) in ids;
    }
  }

  /**
   A Create posts exactly when the cluster is known, sizing resolves and, after a doubtful create, the list answers and
   holds no such group; then the declared group is added unless the POST is refused. Otherwise no group changes.
   */
  lemma CreateAddsIff(s: State, want: Identity, a: Attempt)
    ensures var adds := && s.gate == Open(Known) && a.sized && a.post != Refused
                        && (Doubtful(s, a) ==> a.listed && NoneDeclared(s.groups, want));
            Created(s, want, a).groups == if adds then s.groups[s.nextId := want] else s.groups
  {
    NoneDeclaredIs(s.groups, want);
  }

  /** The Create went through to a group: its POST was accepted, or a doubtful one found exactly one. */
  ghost predicate Named(s: State, want: Identity, a: Attempt, m: nat) {
    if Doubtful(s, a) && !NoneDeclared(s.groups, want) then a.listed && OnlyDeclared(s.groups, want, m)
    else a.post.Accepted? && (Doubtful(s, a) ==> a.listed) && m == s.nextId
  }

  /**
   What is on the object after a Create on a known cluster: recorded, it is named after the new group, or the adopted
   one, whose parent is kept too, and a new one is remembered, as far as status is saved; or a failure is marked, for
   good. An outcome that is not recorded leaves the create pending, a recorded one does not.
   */
  lemma CreateRecords(s: State, want: Identity, a: Attempt)
    requires s.gate == Open(Known) && a.sized && forall id | id in s.groups :: id < s.nextId
    ensures var t := Created(s, want, a);
            && t.unrecorded == !a.recorded && t.gate.Shut?
            && (!a.recorded ==>
                  t.ext == s.ext && t.mem == s.mem && t.memCluster == s.memCluster && t.failed == s.failed)
            && (a.recorded ==>
                  && (forall m: nat | Named(s, want, a, m) ::
                        && t.ext == Some(m) && t.failed == s.failed
                        && t.mem == (if a.saved && t.groups != s.groups then Some(m) else s.mem)
                        && t.memCluster == if a.saved then Known else s.memCluster)
                  && ((forall m: nat :: !Named(s, want, a, m)) ==>
                        && t.failed && t.ext == s.ext && t.mem == s.mem && t.memCluster == s.memCluster))
  {
    hide Matches, Declared;
    NoneDeclaredIs(s.groups, want);
    assert s.nextId !in s.groups && s.nextId in s.groups[s.nextId := want];
    assert forall m: nat | Named(s, want, a, m) ::
        Doubtful(s, a) && !NoneDeclared(s.groups, want) ==> Matching(s.groups, want) == {m};
    if !(Doubtful(s, a) && !NoneDeclared(s.groups, want)) && a.post.Accepted? && (Doubtful(s, a) ==> a.listed) {
      assert Named(s, want, a, s.nextId);
    }
    if Doubtful(s, a) && a.listed && |Matching(s.groups, want)| == 1 {
      assert Named(s, want, a, Only(Matching(s.groups, want)));
    }
  }

  /** A Create without a known cluster or sizing is an error; none runs without an Observe that found nothing. */
  lemma NoCreate(s: State, want: Identity, a: Attempt)
    requires s.gate != Open(Known) || !a.sized
    ensures Created(s, want, a) ==
            if s.gate.Shut? then s
            else if a.recorded then s.(failed := true, unrecorded := false, gate := Shut)
            else s.(unrecorded := true, gate := Shut)
  {
  }

  /** Each verdict of an Observe, exactly; the parent that counts is the remembered one, else the connected one. */
  lemma VerdictsIff(s: State, resolved: ClusterRef, answered: bool)
    ensures var v := VerdictOf(s, resolved, answered);
            var known := if s.memCluster == Unset then resolved == Known else s.memCluster == Known;
            var asked := s.ext.Some? && known;
            && (v.Failed? <==> asked && !answered)
            && (v.Present? <==> asked && answered && s.ext.value in s.groups)
            && (v.Parked? <==>
                  && s.mem.Some? && s.mem != s.ext
                  && (s.ext.None? || (asked && answered && s.ext.value !in s.groups)))
            && (v.Absent? <==>
                  || (s.ext.None? && s.mem.None?) || (s.ext.Some? && !known)
                  || (asked && answered && s.ext.value !in s.groups && (s.mem.None? || s.mem == s.ext)))
  {
  }

  /** An Observe only opens the gate, when it reports absence, and remembers the group it found and its parent. */
  lemma ObserveRecords(s: State, resolved: ClusterRef, answered: bool, saved: bool)
    ensures var v, t := VerdictOf(s, resolved, answered), Observed(s, resolved, answered, saved);
            && (t.gate == if v.Absent? then Open(resolved) else Shut)
            && t.groups == s.groups && t.nextId == s.nextId && t.ext == s.ext
            && t.unrecorded == s.unrecorded && t.failed == s.failed
            && (if v.Present? && saved then t.mem == s.ext && t.memCluster == Known
                else t.mem == s.mem && t.memCluster == s.memCluster)
  {
  }

  // ---- a working round -------------------------------------------------------------------------

  predicate Works(a: Attempt) {
    a.sized && a.listed && a.post.Accepted? && a.recorded && a.saved
  }

  /** An Observe that is answered and saved, and the Create after it. */
  function Round(s: State, want: Identity, a: Attempt): State {
    Created(Observed(s, Known, true, true), want, a)
  }

  /** The one declared group exists and the object is named after it. */
  ghost predicate Settled(s: State, want: Identity) {
    s.ext.Some? && OnlyDeclared(s.groups, want, s.ext.value)
  }

  /** Parked on another remembered identity, or named after somebody else's group. */
  predicate Stuck(s: State, want: Identity) {
    if s.ext.None? then s.mem.Some?
    else if s.ext.value in s.groups then !Declared(s.groups[s.ext.value], want)
    else s.mem.Some? && s.mem != s.ext
  }

  /** From every state a run can reach, a round whose calls work settles the pool, exactly unless it is stuck. */
  lemma WorkingRoundSettlesIff(s: State, want: Identity, a: Attempt)
    requires Inv(s, want) && Works(a)
    ensures Settled(Round(s, want, a), want) <==> !Stuck(s, want)
    ensures Stuck(s, want) ==> Round(s, want, a).groups == s.groups && Round(s, want, a).ext == s.ext
  {
    hide Matches, Declared;
    var v, t := VerdictOf(s, Known, true), Observed(s, Known, true, true);
    DeclaredIs(s.groups, want);
    NoneDeclaredIs(s.groups, want);
    if v.Absent? {
      var matches := Matching(s.groups, want);
      if !Armed(s) {
        forall m ensures m !in matches { if m in matches { AbsentMeansNone(s, want, Known, true, m); } }
        assert matches == {};
      }
      AtMostOne(matches);
      CreateAddsIff(t, want, a);
      CreateRecords(t, want, a);
      if |matches| == 0 {
        DeclaredItself(want);
        assert Named(t, want, a, s.nextId);
        assert OnlyDeclared(Round(s, want, a).groups, want, s.nextId);
      } else {
        assert Named(t, want, a, Only(matches));
      }
    }
  }

  lemma DeclaredItself(want: Identity)
    ensures Declared(want, want)
  {
  }

  /** Whatever failed, was lost, vanished or was overwritten harmlessly before, one working round settles the pool. */
  lemma EveryRunRecoversIff(s: State, want: Identity, run: seq<Event>, a: Attempt)
    requires Inv(s, want) && AllAllowed(s, want, run) && Works(a)
    ensures Settled(Round(After(s, want, run), want, a), want) <==> !Stuck(After(s, want, run), want)
  {
    NeverTwoGroups(s, want, run);
    WorkingRoundSettlesIff(After(s, want, run), want, a);
  }

  /** A Create is not under way, or has no cluster to go to. */
  predicate Calm(s: State) {
    s.memCluster != Undecodable && s.gate != Open(Known)
  }

  lemma RoundIsCalm(s: State, want: Identity, a: Attempt)
    requires Inv(s, want)
    ensures Calm(Round(s, want, a))
  {
  }

  /** Once settled, no Observe and no Create changes the groups or the name, whatever their calls do. */
  lemma {:induction false} SettledStays(s: State, want: Identity, run: seq<Event>)
    requires Settled(s, want) && Calm(s) && forall e | e in run :: e.Observing? || e.Creating?
    ensures var t := After(s, want, run); Settled(t, want) && t.groups == s.groups && t.ext == s.ext
    decreases run
  {
    hide Declared;
    if |run| > 0 {
      assert run[0] in run;
      if run[0].Creating? { CreateAddsIff(s, want, run[0].attempt); }
      SettledStays(Step(s, want, run[0]), want, run[1..]);
    }
  }

  /** The one group a working round leaves is the one that stays. */
  lemma SettlesForGood(s: State, want: Identity, a: Attempt, run: seq<Event>)
    requires Inv(s, want) && Works(a) && !Stuck(s, want) && forall e | e in run :: e.Observing? || e.Creating?
    ensures var t := Round(s, want, a); Settled(After(t, want, run), want) && After(t, want, run).groups == t.groups
  {
    WorkingRoundSettlesIff(s, want, a);
    RoundIsCalm(s, want, a);
    SettledStays(Round(s, want, a), want, run);
  }
}
