/** Which upstream group a nodepool is, and never two. */
module NodepoolIdentity {
  import opened Wrappers
  import opened Text

  /** What identifies a declared pool: its name and resolved sizing, zero for the variant not declared. */
  datatype Identity = Identity(name: string, preset: nat, configurator: nat)

  /** A parent cluster reference: absent, the parent's id, or text that is no id. */
  datatype ClusterRef = Unset | Known | Undecodable

  /**
   Whether the last Observe of this reconcile reported the resource absent, and the reference it was connected with.
   */
  datatype Gate = Shut | Open(resolved: ClusterRef)

  /** Upstream groups by id, and everything the object remembers. */
  datatype State = State(groups: map<nat, Identity>, nextId: nat, ext: Option<nat>, mem: Option<nat>,
      memCluster: ClusterRef,
                         unrecorded: bool, failed: bool, gate: Gate)

  datatype Verdict = Parked | Absent | Failed | Present

  /** The fate of a create POST: accepted, accepted with the answer lost, or refused. */
  datatype Post = Accepted | Lost | Refused

  /**
   Everything a Create meets: a pending mark on the object, sizing, the list call, the POST, whether its annotations
   and its status are saved.
   */
  datatype Attempt = Attempt(pendingSeen: bool, sized: bool, listed: bool, post: Post, recorded: bool, saved: bool)

  // ---- identity ----------------------------------------------------------------------------

  /** The declared name and sizing; an upstream group may leave its configurator out. */
  predicate Matches(g: Identity, want: Identity) {
    && g.name == want.name
    && (want.preset != 0 ==> g.preset == want.preset)
    && (want.configurator != 0 && g.configurator != 0 ==> g.configurator == want.configurator)
  }

  function Matching(groups: map<nat, Identity>, want: Identity): set<nat> {
    set id | id in groups && Matches(groups[id], want)
  }

  method FindGroupsByIdentity(groups: map<nat, Identity>, want: Identity) returns (found: set<nat>)
    ensures found == Matching(groups, want)
  {
    found := {};
    var rest := groups.Keys;
    while rest != {}
      invariant rest <= groups.Keys && found == set id | id in groups && id !in rest && Matches(groups[id], want)
      decreases |rest|
    {
      var id :| id in rest;
      var g := groups[id];
      rest := rest - {id};
      if g.name != want.name { continue; }
      if want.preset != 0 && g.preset != want.preset { continue; }
      if want.configurator != 0 && g.configurator != 0 && g.configurator != want.configurator { continue; }
      found := found + {id};
    }
  }

  // ---- the steps ------------------------------------------------------------------------------

  /** The remembered parent wins over the connected one. */
  function ClusterOf(s: State, resolved: ClusterRef): ClusterRef {
    if s.memCluster != Unset then s.memCluster else resolved
  }

  function VerdictOf(s: State, resolved: ClusterRef, answered: bool): Verdict {
    if s.ext.None? then (if s.mem.Some? then Parked else Absent)
    else if ClusterOf(s, resolved) != Known then Absent
    else if !answered then Failed
    else if s.ext.value in s.groups then Present
    else if s.mem.Some? && s.mem != s.ext then Parked
    else Absent
  }

  /** An Observe; its status changes may fail to be saved. */
  function Observed(s: State, resolved: ClusterRef, answered: bool, saved: bool): State {
    var v := VerdictOf(s, resolved, answered);
    var t := s.(gate := if v.Absent? then Open(resolved) else Shut);
    if v.Present? && saved then t.(mem := s.ext, memCluster := Known) else t
  }

  predicate Armed(s: State) {
    s.unrecorded || s.failed
  }

  /**
   What is kept of a Create that returned an identity: a new group is remembered, an adopted one only by its parent.
   */
  function Succeeded(s: State, id: nat, adopted: bool, a: Attempt): State {
    if !a.recorded then s.(unrecorded := true, gate := Shut)
    else
      var t := s.(ext := Some(id), unrecorded := false, gate := Shut);
      if a.saved then t.(mem := if adopted then s.mem else Some(id), memCluster := Known) else t
  }

  /** The annotations after a Create that returned an error. */
  function Errored(s: State, recorded: bool): State {
    if recorded then s.(failed := true, unrecorded := false, gate := Shut) else s.(unrecorded := true, gate := Shut)
  }

  function Posted(s: State, want: Identity, a: Attempt): State {
    var t := if a.post.Refused? then s else s.(groups := s.groups[s.nextId := want], nextId := s.nextId + 1);
    if a.post.Accepted? then Succeeded(t, s.nextId, false, a) else Errored(t, a.recorded)
  }

  /** A Create, which only runs after an Observe that found nothing. */
  function Created(s: State, want: Identity, a: Attempt): State {
    if s.gate.Shut? then s
    else if s.gate.resolved != Known || !a.sized then Errored(s, a.recorded)
    else if Armed(s) || a.pendingSeen then
      var matches := Matching(s.groups, want);
      if !a.listed || |matches| >= 2 then Errored(s, a.recorded)
      else if |matches| == 1 then Succeeded(s, Only(matches), true, a)
      else Posted(s, want, a)
    else Posted(s, want, a)
  }

  function Only(ids: set<nat>): nat
    requires |ids| == 1
  {
    OneElement(ids);
    var id :| id in ids;
    id
  }

  lemma OneElement(ids: set<nat>)
    requires |ids| == 1
    ensures exists x :: ids == {x}
  {
    var x :| x in ids;
    assert |ids - {x}| == 0;
    assert ids == {x};
  }

  class IdentityController {
    const want: Identity
    var groups: map<nat, Identity>
    var nextId: nat
    var ext: Option<nat>
    var mem: Option<nat>
    var memCluster: ClusterRef
    var unrecorded: bool
    var failed: bool
    var gate: Gate

    function View(): State
      reads this
    {
      State(groups, nextId, ext, mem, memCluster, unrecorded, failed, gate)
    }

    constructor (declared: Identity)
      ensures want == declared && View() == State(map[], 0, None, None, Unset, false, false, Shut)
    {
      want, groups, nextId, ext, mem, memCluster := declared, map[], 0, None, None, Unset;
      unrecorded, failed, gate := false, false, Shut;
    }

    method Observe(resolved: ClusterRef, answered: bool, saved: bool) returns (v: Verdict)
      modifies this
      ensures v == VerdictOf(old(View()), resolved, answered)
      ensures View() == Observed(old(View()), resolved, answered, saved)
    {
      gate := Shut;
      if ext.None? {
        if mem.Some? { return Parked; }
        gate := Open(resolved);
        return Absent;
      }
      var cluster := if memCluster != Unset then memCluster else resolved;
      if cluster != Known {
        gate := Open(resolved);
        return Absent;
      }
      if !answered { return Failed; }
      if ext.value !in groups {
        if mem.Some? && mem.value != ext.value { return Parked; }
        gate := Open(resolved);
        return Absent;
      }
      if saved { mem, memCluster := ext, Known; }
      return Present;
    }

    /**
     Persists the outcome: a saved success names the group, a saved error leaves a mark, an unsaved outcome stays
     pending.
     */
    method Record(id: Option<nat>, adopted: bool, a: Attempt)
      modifies this
      ensures View() == if id.Some? then Succeeded(old(View()), id.value, adopted, a)
          else Errored(old(View()), a.recorded)
    {
      gate := Shut;
      if !a.recorded {
        unrecorded := true;
        return;
      }
      unrecorded := false;
      if id.None? {
        failed := true;
        return;
      }
      ext := id;
      if a.saved {
        if !adopted { mem := id; }
        memCluster := Known;
      }
    }

    method Create(a: Attempt)
      modifies this
      ensures View() == Created(old(View()), want, a)
    {
      if gate.Shut? { return; }
      if gate.resolved != Known || !a.sized {
        Record(None, false, a);
        return;
      }
      if unrecorded || failed || a.pendingSeen {
        if !a.listed {
          Record(None, false, a);
          return;
        }
        var matches := FindGroupsByIdentity(groups, want);
        if |matches| == 1 {
          Record(Some(Only(matches)), true, a);
          return;
        }
        if |matches| > 1 {
          Record(None, false, a);
          return;
        }
      }
      if a.post.Refused? {
        Record(None, false, a);
        return;
      }
      var id := nextId;
      groups, nextId := groups[id := want], nextId + 1;
      Record(if a.post.Accepted? then Some(id) else None, false, a);
    }
  }

  // ---- runs -----------------------------------------------------------------------------------------

  /** A controller step, or the world: a deletion, somebody else's group, an overwritten external name. */
  datatype Event =
    | Observing(resolved: ClusterRef, answered: bool, saved: bool)
    | Creating(attempt: Attempt)
    | Vanishing(id: nat)
    | Appearing(g: Identity)
    | Overwriting(value: Option<nat>)

  function Step(s: State, want: Identity, e: Event): State {
    match e
    case Observing(resolved, answered, saved) => Observed(s, resolved, answered, saved)
    case Creating(a) => Created(s, want, a)
    case Vanishing(id) => s.(groups := s.groups - {id})
    case Appearing(g) => s.(groups := s.groups[s.nextId := g], nextId := s.nextId + 1)
    case Overwriting(v) => s.(ext := v)
  }

  function After(s: State, want: Identity, run: seq<Event>): State
    decreases run
  {
    if |run| == 0 then s else After(Step(s, want, run[0]), want, run[1..])
  }

  /** Handed out before and gone. */
  predicate Dead(s: State, id: nat) {
    id < s.nextId && id !in s.groups
  }

  /** An object without a mark holds on to group `m`: it is named after it, or it is parked for good. */
  predicate Holds(s: State, m: nat) {
    s.ext == Some(m) || (s.mem.Some? && (s.ext.None? || (Dead(s, s.ext.value) && s.mem != s.ext)))
  }

  /** Overwriting the name is harmless while a mark is on the object, or when the group stays held. */
  predicate Harmless(s: State, want: Identity, v: Option<nat>) {
    Armed(s) || forall m | m in Matching(s.groups, want) :: Holds(s.(ext := v), m)
  }

  /** What the world may do: others create groups of other identities, the name is overwritten harmlessly. */
  predicate Allowed(s: State, want: Identity, e: Event) {
    match e
    case Appearing(g) => !Matches(g, want)
    case Overwriting(v) => Harmless(s, want, v)
    case _ => true
  }

  predicate AllAllowed(s: State, want: Identity, run: seq<Event>)
    decreases run
  {
    |run| > 0 ==> Allowed(s, want, run[0]) && AllAllowed(Step(s, want, run[0]), want, run[1..])
  }

  /** At most one group has the identity, and an object without a mark of an ambiguous create holds on to it. */
  ghost predicate Inv(s: State, want: Identity) {
    && (forall a, b | a in Matching(s.groups, want) && b in Matching(s.groups, want) :: a == b)
    && (forall id | id in s.groups :: id < s.nextId)
    && s.memCluster != Undecodable
    && (!Armed(s) ==> forall m | m in Matching(s.groups, want) :: Holds(s, m))
    && (!Armed(s) && s.gate.Open? && s.gate.resolved == Known ==> Matching(s.groups, want) == {})
  }

  lemma ObserveKeepsInv(s: State, want: Identity, resolved: ClusterRef, answered: bool, saved: bool)
    requires Inv(s, want)
    ensures Inv(Observed(s, resolved, answered, saved), want)
  {
    var t := Observed(s, resolved, answered, saved);
    assert Matching(t.groups, want) == Matching(s.groups, want);
    if !Armed(s) && t.gate.Open? && resolved == Known {
      forall m ensures m !in Matching(s.groups, want) {
        if m in Matching(s.groups, want) { AbsentMeansNone(s, want, resolved, answered, m); }
      }
    }
  }

  /** An unmarked object that is connected and reports absence really has no group. */
  lemma AbsentMeansNone(s: State, want: Identity, resolved: ClusterRef, answered: bool, m: nat)
    requires Inv(s, want) && !Armed(s) && resolved == Known && VerdictOf(s, resolved, answered).Absent?
    ensures m !in Matching(s.groups, want)
  {
  }

  lemma PostKeepsInv(s: State, want: Identity, a: Attempt)
    requires Inv(s, want) && Matching(s.groups, want) == {}
    ensures Inv(Posted(s, want, a), want)
  {
    var t := Posted(s, want, a);
    if !a.post.Refused? {
      forall m ensures m in Matching(t.groups, want) <==> m == s.nextId {
        if m in s.groups { assert m !in Matching(s.groups, want); }
      }
    }
  }

  lemma CreateKeepsInv(s: State, want: Identity, a: Attempt)
    requires Inv(s, want)
    ensures Inv(Created(s, want, a), want)
  {
    var matches := Matching(s.groups, want);
    if s.gate.Open? && s.gate.resolved == Known && a.sized {
      if Armed(s) || a.pendingSeen {
        if a.listed && |matches| == 1 {
          var t := Created(s, want, a);
          assert Only(matches) in matches;
          assert Matching(t.groups, want) == matches;
        } else if a.listed && |matches| == 0 {
          PostKeepsInv(s, want, a);
        }
      } else {
        PostKeepsInv(s, want, a);
      }
    }
  }

  lemma WorldKeepsInv(s: State, want: Identity, e: Event)
    requires Inv(s, want) && Allowed(s, want, e) && (e.Vanishing? || e.Appearing? || e.Overwriting?)
    ensures Inv(Step(s, want, e), want)
  {
    var t := Step(s, want, e);
    assert Matching(t.groups, want) <= Matching(s.groups, want);
  }

  /** Over every allowed run at most one upstream group of the declared identity exists. */
  lemma {:induction false} NeverTwoGroups(s: State, want: Identity, run: seq<Event>)
    requires Inv(s, want) && AllAllowed(s, want, run)
    ensures Inv(After(s, want, run), want) && |Matching(After(s, want, run).groups, want)| <= 1
    decreases run
  {
    if |run| == 0 {
      AtMostOne(Matching(s.groups, want));
    } else {
      match run[0] {
        case Observing(resolved, answered, saved) => ObserveKeepsInv(s, want, resolved, answered, saved);
        case Creating(a) => CreateKeepsInv(s, want, a);
        case _ => WorldKeepsInv(s, want, run[0]);
      }
      NeverTwoGroups(Step(s, want, run[0]), want, run[1..]);
    }
  }

  lemma AtMostOne(ids: set<nat>)
    requires forall a, b | a in ids && b in ids :: a == b
    ensures |ids| <= 1
  {
    if ids != {} {
      var x :| x in ids;
      assert ids == {x};
    }
  }

  /**
   Whatever groups exist when nothing is remembered, none of this identity, the first state satisfies the invariant.
   */
  lemma FreshObjectIsSafe(groups: map<nat, Identity>, nextId: nat, want: Identity, run: seq<Event>)
    requires Matching(groups, want) == {} && forall id | id in groups :: id < nextId
    requires AllAllowed(State(groups, nextId, None, None, Unset, false, false, Shut), want, run)
    ensures |Matching(After(State(groups, nextId, None, None, Unset, false, false, Shut), want, run).groups, want)| <= 1
  {
    NeverTwoGroups(State(groups, nextId, None, None, Unset, false, false, Shut), want, run);
  }

  // ---- with and without the pending mark -----------------------------------------------------------------

  /** When every Create sees its own pending mark, external names may be overwritten with anything at any time. */
  lemma {:induction false} MarkedCreatesNeverDuplicate(s: State, want: Identity, run: seq<Event>)
    requires |Matching(s.groups, want)| <= 1 && forall id | id in s.groups :: id < s.nextId
    requires forall e | e in run :: (e.Creating? ==> e.attempt.pendingSeen) && (e.Appearing? ==> !Matches(e.g, want))
    ensures |Matching(After(s, want, run).groups, want)| <= 1
    decreases run
  {
    if |run| > 0 {
      var e := run[0];
      assert e in run;
      MarkedStep(s, want, e);
      MarkedCreatesNeverDuplicate(Step(s, want, e), want, run[1..]);
    }
  }

  lemma MarkedStep(s: State, want: Identity, e: Event)
    requires |Matching(s.groups, want)| <= 1 && forall id | id in s.groups :: id < s.nextId
    requires (e.Creating? ==> e.attempt.pendingSeen) && (e.Appearing? ==> !Matches(e.g, want))
    ensures |Matching(Step(s, want, e).groups, want)| <= 1 && forall id | id in Step(s, want, e).groups ::
        id < Step(s, want, e).nextId
  {
    match e
    case Observing(resolved, answered, saved) => assert Step(s, want, e).groups == s.groups;
    case Creating(a) => MarkedCreate(s, want, a);
    case Vanishing(id) =>
      assert Matching(s.groups - {id}, want) <= Matching(s.groups, want);
      SubsetSize(Matching(s.groups - {id}, want), Matching(s.groups, want));
    case Appearing(g) => assert Matching(s.groups[s.nextId := g], want) == Matching(s.groups, want);
    case Overwriting(_) =>
  }

  lemma MarkedCreate(s: State, want: Identity, a: Attempt)
    requires |Matching(s.groups, want)| <= 1 && (forall id | id in s.groups :: id < s.nextId) && a.pendingSeen
    ensures |Matching(Created(s, want, a).groups, want)| <= 1
    ensures forall id | id in Created(s, want, a).groups :: id < Created(s, want, a).nextId
  {
    hide Matches, Only;
    var t := Created(s, want, a);
    if t.groups != s.groups {
      assert Matching(s.groups, want) == {};
      forall id | id in Matching(t.groups, want) ensures id == s.nextId {
        if id in s.groups { assert id !in Matching(s.groups, want); }
      }
      AtMostOne(Matching(t.groups, want));
    }
  }

  /** A Create makes a second group exactly when it posts without looking while the first one exists. */
  lemma CreateDuplicatesIff(s: State, want: Identity, a: Attempt)
    requires |Matching(s.groups, want)| <= 1 && forall id | id in s.groups :: id < s.nextId
    ensures |Matching(Created(s, want, a).groups, want)| == 2 <==>
            && s.gate == Open(Known) && a.sized && !a.post.Refused? && !Armed(s) && !a.pendingSeen
            && |Matching(s.groups, want)| == 1
    ensures |Matching(Created(s, want, a).groups, want)| <= 2
  {
    hide Matches, Only, Armed;
    var t := Created(s, want, a);
    if t.groups != s.groups {
      forall id ensures id in Matching(t.groups, want) <==> id in Matching(s.groups, want) || id == s.nextId {
        MatchesItself(want);
      }
      assert Matching(t.groups, want) == Matching(s.groups, want) + {s.nextId};
      assert s.nextId !in Matching(s.groups, want);
    }
  }

  lemma MatchesItself(want: Identity)
    ensures Matches(want, want)
  {
  }

  lemma OneMore(s: State, want: Identity, e: Event, rest: seq<Event>)
    ensures After(s, want, [e] + rest) == After(Step(s, want, e), want, rest)
    ensures AllAllowed(s, want, [e] + rest) <==> Allowed(s, want, e) && AllAllowed(Step(s, want, e), want, rest)
  {
    assert ([e] + rest)[1..] == rest;
  }

  /** An observation that finds nothing, and an unmarked Create after it. */
  lemma LookAndCreate(s: State, want: Identity, m: nat) returns (run: seq<Event>)
    requires m in Matching(s.groups, want) && (forall id | id in s.groups :: id < s.nextId) && !Armed(s)
    requires VerdictOf(s, Known, true).Absent?
    ensures AllAllowed(s, want, run) && |Matching(After(s, want, run).groups, want)| >= 2
  {
    var look, quick := Observing(Known, true, true), Creating(Attempt(false, true, true, Accepted, true, true));
    var t := Step(s, want, look);
    var d := Step(t, want, quick);
    OneMore(s, want, look, [quick]);
    OneMore(t, want, quick, []);
    assert [look] + [quick] == [look, quick] && [quick] + [] == [quick];
    run := [look, quick];
    assert {m, s.nextId} <= Matching(d.groups, want);
    SubsetSize({m, s.nextId}, Matching(d.groups, want));
  }

  /** A group that is not held gets a twin in some run the world allows. */
  lemma {:induction false} NotHeldDuplicates(s: State, want: Identity, m: nat) returns (run: seq<Event>)
    requires m in Matching(s.groups, want) && (forall id | id in Matching(s.groups, want) :: id == m)
    requires (forall id | id in s.groups :: id < s.nextId) && s.memCluster != Undecodable && !Armed(s) && !Holds(s, m)
    ensures AllAllowed(s, want, run) && |Matching(After(s, want, run).groups, want)| >= 2
    decreases if s.ext.Some? && s.ext.value >= s.nextId then s.ext.value - s.nextId + 1 else 0
  {
    if s.ext.Some? && s.ext.value >= s.nextId {
      var e := Appearing(Identity(want.name + "2", 0, 0));
      assert |want.name + "2"| > |want.name|;
      assert Matching(Step(s, want, e).groups, want) == Matching(s.groups, want);
      var rest := NotHeldDuplicates(Step(s, want, e), want, m);
      OneMore(s, want, e, rest);
      run := [e] + rest;
    } else if s.ext.Some? && s.ext.value in s.groups {
      var look, gone := Observing(Known, true, true), Vanishing(s.ext.value);
      var t := Step(s, want, look);
      var rest := LookAndCreate(Step(t, want, gone), want, m);
      OneMore(t, want, gone, rest);
      OneMore(s, want, look, [gone] + rest);
      run := [look] + ([gone] + rest);
    } else {
      run := LookAndCreate(s, want, m);
    }
  }

  /**
   Overwriting the external name can lead to a second group, in some run without another harmful overwrite, exactly
   when no mark is on the object and the group is neither named nor parked: the name was cleared or points to a
   group that is gone with no other identity remembered, or it points to a group of somebody else, now or later.
   */
  lemma OverwriteSafeIff(s: State, want: Identity, v: Option<nat>)
    requires Inv(s, want)
    ensures var t := s.(ext := v);
            (forall run | AllAllowed(t, want, run) :: |Matching(After(t, want, run).groups, want)| <= 1) <==>
                Harmless(s, want, v)
  {
    var t := s.(ext := v);
    if Harmless(s, want, v) {
      WorldKeepsInv(s, want, Overwriting(v));
      forall run | AllAllowed(t, want, run) ensures |Matching(After(t, want, run).groups, want)| <= 1 {
        NeverTwoGroups(t, want, run);
      }
    } else {
      var m :| m in Matching(s.groups, want) && !Holds(t, m);
      var run := NotHeldDuplicates(t, want, m);
    }
  }
}
