/** Converging a nodepool, and mirroring it in status. */
module NodepoolUpdate {
  import opened Wrappers
  import opened Text

  datatype Taint = Taint(key: string, value: Option<string>, effect: string)
  datatype WireTaint = WireTaint(key: string, value: string, effect: string)
  datatype Label = Label(key: string, value: string)
  datatype Autoscaling = Autoscaling(enabled: bool, minSize: int, maxSize: int)

  datatype Spec = Spec(name: string, labels: map<string, string>, taints: seq<Taint>, nodeCount: int,
                       autoscaling: Option<Autoscaling>, presetName: Option<string>, hasResources: bool)
  datatype Group = Group(name: string, labels: seq<Label>, taints: seq<WireTaint>, isAutoscaling: bool,
                         minSize: Option<int>, maxSize: Option<int>, nodeCount: int, presetId: int)
  /** The sizing ids remembered in status. */
  datatype Locks = Locks(preset: Option<int>, configurator: Option<int>)

  /** The write calls an Update makes. */
  datatype Write = Metadata(name: string, labels: seq<Label>, taints: seq<WireTaint>)
                 | SwitchOn(minSize: int, maxSize: int) | SwitchOff | Increase(count: int) | Reduce(count: int)
  datatype Refusal = SizingSwitch | PresetChange

  // ---- labels and taints ------------------------------------------------------------------

  function OnWire(t: Taint): WireTaint {
    WireTaint(t.key, t.value.GetOr(""), t.effect)
  }

  function WireTaints(taints: seq<Taint>): seq<WireTaint> {
    seq(|taints|, i requires 0 <= i < |taints| => OnWire(taints[i]))
  }

  ghost function WireLabels(labels: map<string, string>): seq<Label> {
    LabelsFor(SortedSet(labels.Keys), labels)
  }

  ghost function LabelsFor(keys: seq<string>, labels: map<string, string>): seq<Label> {
    seq(|keys|, i requires 0 <= i < |keys| => Label(keys[i], if keys[i] in labels then labels[keys[i]] else ""))
  }

  method DeclaredLabels(labels: map<string, string>) returns (out: seq<Label>)
    ensures out == WireLabels(labels)
  {
    var keys := SortedKeys(labels.Keys);
    out := [];
    for i := 0 to |keys|
      invariant out == LabelsFor(keys[..i], labels)
    {
      SortedSetMember(labels.Keys, i);
      assert keys[..i + 1] == keys[..i] + [keys[i]];
      out := out + [Label(keys[i], labels[keys[i]])];
    }
    assert keys[..|keys|] == keys;
  }

  method DeclaredTaints(taints: seq<Taint>) returns (out: seq<WireTaint>)
    ensures out == WireTaints(taints)
  {
    out := [];
    for i := 0 to |taints|
      invariant out == WireTaints(taints[..i])
    {
      assert taints[..i + 1] == taints[..i] + [taints[i]];
      out := out + [WireTaint(taints[i].key, taints[i].value.GetOr(""), taints[i].effect)];
    }
    assert taints[..|taints|] == taints;
  }

  predicate LabelsAgree(labels: map<string, string>, observed: seq<Label>) {
    |labels| == |observed| && forall l | l in observed :: l.key in labels && labels[l.key] == l.value
  }

  predicate TaintsAgree(taints: seq<Taint>, observed: seq<WireTaint>) {
    |taints| == |observed| && forall t | t in observed :: t in WireTaints(taints)
  }

  predicate MetadataAgrees(s: Spec, g: Group) {
    LabelsAgree(s.labels, g.labels) && TaintsAgree(s.taints, g.taints)
  }

  method MetadataUpToDate(s: Spec, g: Group) returns (r: bool)
    ensures r == MetadataAgrees(s, g)
  {
    if |s.labels| != |g.labels| { return false; }
    for i := 0 to |g.labels|
      invariant forall j | 0 <= j < i :: g.labels[j].key in s.labels && s.labels[g.labels[j].key] == g.labels[j].value
    {
      if g.labels[i].key !in s.labels || s.labels[g.labels[i].key] != g.labels[i].value { return false; }
    }
    if |s.taints| != |g.taints| { return false; }
    var want := set t | t in WireTaints(s.taints);
    for i := 0 to |g.taints|
      invariant forall j | 0 <= j < i :: g.taints[j] in WireTaints(s.taints)
    {
      if g.taints[i] !in want { return false; }
    }
    return true;
  }

  // ---- drift and update ---------------------------------------------------------------------

  predicate DeclaredOn(s: Spec) {
    s.autoscaling.Some? && s.autoscaling.value.enabled
  }

  predicate BoundsAgree(a: Autoscaling, g: Group) {
    g.minSize == Some(a.minSize) && g.maxSize == Some(a.maxSize)
  }

  /** The drift check. */
  predicate UpToDate(s: Spec, locks: Locks, g: Group) {
    if s.presetName.Some? && locks.configurator.Some? then false
    else if s.hasResources && locks.preset.Some? then false
    else if !MetadataAgrees(s, g) then false
    else if DeclaredOn(s) then g.isAutoscaling && BoundsAgree(s.autoscaling.value, g)
    else !g.isAutoscaling && s.nodeCount == g.nodeCount
  }

  function Refused(s: Spec, locks: Locks, g: Group): Option<Refusal> {
    if (s.hasResources && locks.preset.Some?) || (!s.hasResources && locks.configurator.Some?) then Some(SizingSwitch)
    else if locks.preset.Some? && g.presetId != 0 && locks.preset.value != g.presetId then Some(PresetChange)
    else None
  }

  /** The autoscaler or count write, at most one. */
  function SizeWrites(s: Spec, g: Group): seq<Write> {
    if DeclaredOn(s) then
      (if !g.isAutoscaling || !BoundsAgree(s.autoscaling.value, g)
       then [SwitchOn(s.autoscaling.value.minSize, s.autoscaling.value.maxSize)] else [])
    else if g.isAutoscaling then [SwitchOff]
    else if s.nodeCount > g.nodeCount then [Increase(s.nodeCount - g.nodeCount)]
    else if s.nodeCount < g.nodeCount then [Reduce(g.nodeCount - s.nodeCount)]
    else []
  }

  ghost function Writes(s: Spec, locks: Locks, g: Group): seq<Write> {
    if Refused(s, locks, g).Some? then []
    else
      (if MetadataAgrees(s, g) then [] else [Metadata(s.name, WireLabels(s.labels), WireTaints(s.taints))])
      + SizeWrites(s, g)
  }

  /** What an accepted write does: the metadata PATCH replaces the full sets, switching off clears the bounds. */
  function Applied(g: Group, w: Write): Group {
    match w
    case Metadata(name, labels, taints) => g.(name := name, labels := labels, taints := taints)
    case SwitchOn(lo, hi) => g.(isAutoscaling := true, minSize := Some(lo), maxSize := Some(hi))
    case SwitchOff => g.(isAutoscaling := false, minSize := None, maxSize := None)
    case Increase(n) => g.(nodeCount := g.nodeCount + n)
    case Reduce(n) => g.(nodeCount := g.nodeCount - n)
  }

  function AppliedAll(g: Group, ws: seq<Write>): Group
    decreases ws
  {
    if |ws| == 0 then g else AppliedAll(Applied(g, ws[0]), ws[1..])
  }

  function First(ws: seq<Write>, n: nat): seq<Write> {
    if n <= |ws| then ws[..n] else ws
  }

  class GroupController {
    var name: string
    var labels: seq<Label>
    var taints: seq<WireTaint>
    var isAutoscaling: bool
    var minSize: Option<int>
    var maxSize: Option<int>
    var nodeCount: int
    var presetId: int

    function State(): Group
      reads this
    {
      Group(name, labels, taints, isAutoscaling, minSize, maxSize, nodeCount, presetId)
    }

    constructor (g: Group)
      ensures State() == g
    {
      name, labels, taints, isAutoscaling := g.name, g.labels, g.taints, g.isAutoscaling;
      minSize, maxSize, nodeCount, presetId := g.minSize, g.maxSize, g.nodeCount, g.presetId;
    }

    /**
     Metadata first, then the autoscaler, then the count; `healthy` write calls succeed before one fails. Works from
     the group it fetched.
     */
    method Update(s: Spec, locks: Locks, healthy: nat) returns (refusal: Option<Refusal>, ok: bool)
      modifies this
      ensures refusal == Refused(s, locks, old(State()))
      ensures State() == AppliedAll(old(State()), First(Writes(s, locks, old(State())), healthy))
      ensures ok <==> refusal.None? && healthy >= |Writes(s, locks, old(State()))|
    {
      hide MetadataAgrees, WireLabels, WireTaints, BoundsAgree, AppliedAll, First, Writes;
      var g := State();
      BoundsMean(s, g);
      PassShape(s, locks, g, healthy);
      if s.hasResources && locks.preset.Some? { return Some(SizingSwitch), false; }
      if !s.hasResources && locks.configurator.Some? { return Some(SizingSwitch), false; }
      if locks.preset.Some? && g.presetId != 0 && locks.preset.value != g.presetId { return Some(PresetChange), false; }
      refusal, ok := None, true;
      var alive := healthy;
      var fine := MetadataUpToDate(s, g);
      if !fine {
        if alive == 0 { return None, false; }
        var ls := DeclaredLabels(s.labels);
        var ts := DeclaredTaints(s.taints);
        name, labels, taints := s.name, ls, ts;
        alive := alive - 1;
      }
      if DeclaredOn(s) {
        var a := s.autoscaling.value;
        var drift := g.minSize.None? || g.minSize.value != a.minSize || g.maxSize.None? || g.maxSize.value != a.maxSize;
        if !g.isAutoscaling || drift {
          if alive == 0 { return None, false; }
          isAutoscaling, minSize, maxSize := true, Some(a.minSize), Some(a.maxSize);
        }
        return;
      }
      if g.isAutoscaling {
        if alive == 0 { return None, false; }
        isAutoscaling, minSize, maxSize := false, None, None;
        return;
      }
      var delta := s.nodeCount - g.nodeCount;
      if delta > 0 {
        if alive == 0 { return None, false; }
        nodeCount := nodeCount + delta;
      } else if delta < 0 {
        if alive == 0 { return None, false; }
        nodeCount := nodeCount - (-delta);
      }
    }
  }

  /**
   A pass is the metadata write when needed, then the one size write when there is one, as far as the calls succeed.
   */
  lemma PassShape(s: Spec, locks: Locks, g: Group, healthy: nat)
    ensures Refused(s, locks, g).Some? ==>
              Writes(s, locks, g) == [] && AppliedAll(g, First(Writes(s, locks, g), healthy)) == g
    ensures Refused(s, locks, g).None? ==>
              var size, spent := SizeWrites(s, g), if MetadataAgrees(s, g) then 0 else 1;
              var m := if MetadataAgrees(s, g) then g else Applied(g,
                  Metadata(s.name, WireLabels(s.labels), WireTaints(s.taints)));
              && |Writes(s, locks, g)| == spent + |size|
              && AppliedAll(g, First(Writes(s, locks, g), healthy)) ==
                 if healthy < spent then g else if |size| == 0 || healthy == spent then m else Applied(m, size[0])
  {
    hide MetadataAgrees, WireLabels, WireTaints, LabelsFor, BoundsAgree;
    if Refused(s, locks, g).None? {
      var meta := if MetadataAgrees(s, g) then [] else [Metadata(s.name, WireLabels(s.labels), WireTaints(s.taints))];
      var size := SizeWrites(s, g);
      if healthy >= |meta| {
        FirstSplit(meta, size, healthy);
        AppliedConcat(g, meta, First(size, healthy - |meta|));
        if |size| > 0 && healthy > |meta| {
          assert First(size, healthy - |meta|) == [size[0]] + [];
          AppliedConcat(AppliedAll(g, meta), [size[0]], []);
        }
      }
    }
  }

  lemma FirstSplit(a: seq<Write>, b: seq<Write>, n: nat)
    requires n >= |a|
    ensures First(a + b, n) == a + First(b, n - |a|)
  {
  }

  lemma BoundsMean(s: Spec, g: Group)
    ensures s.autoscaling.Some? ==>
              (BoundsAgree(s.autoscaling.value, g) <==>
               g.minSize == Some(s.autoscaling.value.minSize) && g.maxSize == Some(s.autoscaling.value.maxSize))
  {
  }

  lemma {:induction false} AppliedConcat(g: Group, a: seq<Write>, b: seq<Write>)
    ensures AppliedAll(g, a + b) == AppliedAll(AppliedAll(g, a), b)
    decreases a
  {
    if |a| == 0 {
      assert a + b == b;
    } else {
      assert (a + b)[1..] == a[1..] + b;
      AppliedConcat(Applied(g, a[0]), a[1..], b);
    }
  }

  // ---- agreement and convergence -----------------------------------------------------------------

  /**
   Past the sizing guards the drift check holds exactly when Update writes nothing; only a pool declaring both sizings
   with a locked configurator stays flagged.
   */
  lemma DriftIffWrites(s: Spec, locks: Locks, g: Group)
    requires Refused(s, locks, g).None?
    ensures UpToDate(s, locks, g) <==>
            Writes(s, locks, g) == [] && !(s.presetName.Some? && s.hasResources && locks.configurator.Some?)
  {
  }

  /**
   A count is written only when autoscaling is declared off and observed off, and an autoscaler is switched before any
   count.
   */
  lemma CountOnlyWhenOff(s: Spec, locks: Locks, g: Group, w: Write)
    requires w in Writes(s, locks, g) && (w.Increase? || w.Reduce?)
    ensures !DeclaredOn(s) && !g.isAutoscaling && Applied(g, w).nodeCount == s.nodeCount
  {
  }

  /**
   Drifted metadata is written before anything else: when only that call gets through, name, labels and taints are the
   declared ones and nothing else changed; when none does, nothing changed.
   */
  lemma MetadataFirst(s: Spec, locks: Locks, g: Group)
    requires Refused(s, locks, g).None? && !MetadataAgrees(s, g)
    ensures AppliedAll(g, First(Writes(s, locks, g), 0)) == g
    ensures var h := AppliedAll(g, First(Writes(s, locks, g), 1));
            && MetadataAgrees(s, h) && h == g.(name := s.name, labels := h.labels, taints := h.taints)
            && |h.taints| == |s.taints|
            && (forall i | 0 <= i < |s.taints| :: && h.taints[i].key == s.taints[i].key
                  && h.taints[i].effect == s.taints[i].effect
                  && h.taints[i].value == if s.taints[i].value.Some? then s.taints[i].value.value else "")
            && forall i, j | 0 <= i < j < |h.labels| :: Leq(h.labels[i].key, h.labels[j].key)
  {
    hide SizeWrites;
    PassShape(s, locks, g, 0);
    PassShape(s, locks, g, 1);
    DeclaredLabelsAgree(s.labels);
    SortedSetIs(s.labels.Keys);
  }

  /** One working pass. */
  ghost function Pass(s: Spec, locks: Locks, g: Group): Group {
    AppliedAll(g, Writes(s, locks, g))
  }

  lemma DeclaredLabelsAgree(labels: map<string, string>)
    ensures LabelsAgree(labels, WireLabels(labels))
  {
    var keys := SortedSet(labels.Keys);
    SortedSetIs(labels.Keys);
    SortedSetListing(labels.Keys);
    assert |keys| == |multiset(keys)| == |multiset(labels.Keys)| == |labels.Keys|;
    forall l | l in WireLabels(labels) ensures l.key in labels && labels[l.key] == l.value {
      var i :| 0 <= i < |keys| && WireLabels(labels)[i] == l;
      assert keys[i] in keys;
    }
  }

  lemma OnePass(s: Spec, locks: Locks, g: Group)
    requires Refused(s, locks, g).None?
    ensures var h := Pass(s, locks, g);
            && MetadataAgrees(s, h) && h.presetId == g.presetId
            && (DeclaredOn(s) ==> h.isAutoscaling && BoundsAgree(s.autoscaling.value, h))
            && (!DeclaredOn(s) ==> !h.isAutoscaling && h.nodeCount == if g.isAutoscaling then g.nodeCount
                else s.nodeCount)
  {
    DeclaredLabelsAgree(s.labels);
    var meta := if MetadataAgrees(s, g) then [] else [Metadata(s.name, WireLabels(s.labels), WireTaints(s.taints))];
    AppliedConcat(g, meta, SizeWrites(s, g));
    var m := AppliedAll(g, meta);
    assert MetadataAgrees(s, m) && m == g.(name := m.name, labels := m.labels, taints := m.taints);
    var size := SizeWrites(s, g);
    if |size| > 0 { assert size[1..] == []; }
  }

  /**
   With nobody interfering one pass suffices exactly unless an autoscaler had to be switched off over a wrong count;
   two always do.
   */
  lemma TwoPassesConverge(s: Spec, locks: Locks, g: Group)
    requires Refused(s, locks, g).None? && !(s.presetName.Some? && s.hasResources && locks.configurator.Some?)
    ensures UpToDate(s, locks, Pass(s, locks, g)) <==> DeclaredOn(s) || !g.isAutoscaling || g.nodeCount == s.nodeCount
    ensures UpToDate(s, locks, Pass(s, locks, Pass(s, locks, g)))
  {
    OnePass(s, locks, g);
    OnePass(s, locks, Pass(s, locks, g));
  }

  // ---- what agreement of the lists means ----------------------------------------------------------

  predicate DistinctLabels(labels: seq<Label>) {
    forall i, j | 0 <= i < j < |labels| :: labels[i].key != labels[j].key
  }

  function LabelKeys(labels: seq<Label>): seq<string> {
    seq(|labels|, i requires 0 <= i < |labels| => labels[i].key)
  }

  /** The observed pairs are the declared map. */
  ghost predicate SameLabels(labels: map<string, string>, observed: seq<Label>) {
    (forall k :: k in labels <==> k in LabelKeys(observed)) && forall l | l in observed ::
        l.key in labels && labels[l.key] == l.value
  }

  ghost predicate SameTaints(taints: seq<Taint>, observed: seq<WireTaint>) {
    forall t :: t in observed <==> t in WireTaints(taints)
  }

  /** Some key is observed with two values. */
  predicate Contradictory(labels: seq<Label>) {
    exists l, m :: l in labels && m in labels && l.key == m.key && l.value != m.value
  }

  /** On labels with distinct keys the check is exact: it holds when the observed pairs are the declared map. */
  lemma LabelsAgreeExactly(labels: map<string, string>, observed: seq<Label>)
    requires DistinctLabels(observed)
    ensures LabelsAgree(labels, observed) <==> SameLabels(labels, observed)
  {
    var keys := LabelKeys(observed);
    var seen := set k | k in keys;
    DistinctSize(keys);
    if LabelsAgree(labels, observed) {
      forall k | k in seen ensures k in labels.Keys {
        var i :| 0 <= i < |keys| && keys[i] == k;
        assert observed[i] in observed;
      }
      SubsetSize(seen, labels.Keys);
      assert forall k :: k in seen <==> k in keys;
    }
    assert (forall k :: k in labels <==> k in keys) ==> seen == labels.Keys;
  }

  /**
   The label check is right about every declaration exactly when upstream repeats no key, or gives one key two values.
   */
  lemma LabelsExactIff(observed: seq<Label>)
    ensures (forall labels: map<string, string> :: LabelsAgree(labels, observed) <==> SameLabels(labels, observed)) <==>
            DistinctLabels(observed) || Contradictory(observed)
  {
    if DistinctLabels(observed) {
      forall labels: map<string, string> ensures LabelsAgree(labels, observed) <==> SameLabels(labels, observed) {
        LabelsAgreeExactly(labels, observed);
      }
    } else if !Contradictory(observed) {
      LabelMapHolds(observed);
      LabelMapFrom(observed);
      assert !LabelsAgree(LabelMap(observed), observed) && SameLabels(LabelMap(observed), observed);
    }
  }

  /** Without a contradiction the map of a label list is the list, seen as pairs. */
  lemma LabelMapFrom(labels: seq<Label>)
    requires !Contradictory(labels)
    ensures SameLabels(LabelMap(labels), labels)
  {
    LabelMapKeys(labels);
    LabelMapListed(labels);
    forall l | l in labels ensures l.key in LabelMap(labels) && LabelMap(labels)[l.key] == l.value {
      var i :| 0 <= i < |labels| && labels[i] == l;
      assert LabelKeys(labels)[i] == l.key;
      assert Label(l.key, LabelMap(labels)[l.key]) in labels;
    }
  }

  lemma {:induction false} LabelMapListed(labels: seq<Label>)
    ensures forall k | k in LabelMap(labels) :: Label(k, LabelMap(labels)[k]) in labels
  {
    if |labels| > 0 { LabelMapListed(labels[..|labels| - 1]); }
  }

  /** Where the taint check passes on distinct declarations, it is right exactly when upstream repeats no taint. */
  lemma TaintsAgreeExactly(taints: seq<Taint>, observed: seq<WireTaint>)
    requires Distinct(WireTaints(taints))
    ensures TaintsAgree(taints, observed) ==> (SameTaints(taints, observed) <==> Distinct(observed))
    ensures Distinct(observed) && SameTaints(taints, observed) ==> TaintsAgree(taints, observed)
  {
    var wanted := WireTaints(taints);
    var a, b := SetOf(observed), SetOf(wanted);
    DistinctSize(wanted);
    DistinctSize(observed);
    SameMembers(observed, wanted);
    if TaintsAgree(taints, observed) { SubsetSize(a, b); }
  }

  lemma SameMembers<T>(a: seq<T>, b: seq<T>)
    ensures SetOf(a) == SetOf(b) <==> forall x :: x in a <==> x in b
  {
    if SetOf(a) == SetOf(b) {
      forall x ensures x in a <==> x in b { assert x in SetOf(a) <==> x in SetOf(b); }
    }
  }

  /**
   The taint check is right about every declaration without repetition exactly when upstream repeats no taint, and
   right about every declaration only for a group without taints.
   */
  lemma TaintsExactIff(observed: seq<WireTaint>)
    ensures (forall taints | Distinct(WireTaints(taints)) ::
              TaintsAgree(taints, observed) <==> SameTaints(taints, observed)) <==> Distinct(observed)
    ensures (forall taints :: TaintsAgree(taints, observed) <==> SameTaints(taints, observed)) <==> observed == []
  {
    forall taints | Distinct(observed) && Distinct(WireTaints(taints))
      ensures TaintsAgree(taints, observed) <==> SameTaints(taints, observed)
    {
      TaintsAgreeExactly(taints, observed);
    }
    if !Distinct(observed) {
      var once := Dedupe(observed);
      DedupeIsSet(observed);
      var taints := InSpecShape(once);
      assert WireTaints(taints) == once;
      assert SetOf(once) == SetOf(observed);
      DistinctSize(observed);
      DistinctSize(once);
      assert SameTaints(taints, observed) && !TaintsAgree(taints, observed);
    }
    if observed != [] {
      var more := observed + [observed[0]];
      var taints := InSpecShape(more);
      assert WireTaints(taints) == more;
      assert SameTaints(taints, observed) && !TaintsAgree(taints, observed);
    } else {
      forall taints ensures TaintsAgree(taints, []) <==> SameTaints(taints, []) {
        if |taints| > 0 { assert WireTaints(taints)[0] in WireTaints(taints); }
      }
    }
  }

  function Bare(keys: seq<string>): seq<WireTaint> {
    seq(|keys|, i requires 0 <= i < |keys| => WireTaint(keys[i], "", ""))
  }

  lemma BareDistinct(a: seq<WireTaint>, keys: seq<string>)
    requires Distinct(a) && Distinct(keys) && forall t | t in a :: t.key !in keys
    ensures Distinct(a + Bare(keys))
  {
    forall i, j | 0 <= i < |a| && 0 <= j < |keys| ensures a[i] != Bare(keys)[j] {
      assert a[i] in a && keys[j] in keys;
    }
  }

  /**
   Whatever taints upstream repeats, the check passes over some declaration without repetition that is not applied in
   full.
   */
  lemma RepeatedTaintsHideDrift(observed: seq<WireTaint>)
    requires !Distinct(observed)
    ensures exists taints ::
              Distinct(WireTaints(taints)) && TaintsAgree(taints, observed) && !SameTaints(taints, observed)
  {
    var once := Dedupe(observed);
    DedupeIsSet(observed);
    DistinctSize(observed);
    DistinctSize(once);
    assert SetOf(once) == SetOf(observed);
    var other := FreshKeys((set t | t in observed :: t.key), |observed| - |once|);
    var keys := SortedSet(other);
    SortedSetIs(other);
    DistinctSize(keys);
    assert SetOf(keys) == other;
    BareDistinct(once, keys);
    var taints := InSpecShape(once + Bare(keys));
    assert WireTaints(taints) == once + Bare(keys);
    TaintsAgreeExactly(taints, observed);
  }

  // ---- the mirror ------------------------------------------------------------------------------------

  /** What status shows of the group. */
  datatype Mirror = Mirror(nodeCount: int, lockedPreset: Option<int>, labels: map<string, string>,
      taints: seq<Taint>, autoscaling: Autoscaling,
                           hasMin: bool, hasMax: bool)

  function LabelMap(labels: seq<Label>): map<string, string> {
    var k := |labels| - 1;
    if k < 0 then map[] else LabelMap(labels[..k])[labels[k].key := labels[k].value]
  }

  function InSpecShape(taints: seq<WireTaint>): seq<Taint> {
    seq(|taints|, i requires 0 <= i < |taints| =>
      Taint(taints[i].key, if taints[i].value == "" then None else Some(taints[i].value), taints[i].effect))
  }

  function Mirrored(g: Group, locked: Option<int>): Mirror {
    Mirror(g.nodeCount, if g.presetId != 0 then Some(g.presetId) else locked, LabelMap(g.labels), InSpecShape(g.taints),
           Autoscaling(g.isAutoscaling, g.minSize.GetOr(0), g.maxSize.GetOr(0)), g.minSize.Some?, g.maxSize.Some?)
  }

  method PopulateStatus(g: Group, locked: Option<int>) returns (m: Mirror)
    ensures m == Mirrored(g, locked)
  {
    var preset := locked;
    if g.presetId != 0 { preset := Some(g.presetId); }
    var labels := map[];
    for i := 0 to |g.labels|
      invariant labels == LabelMap(g.labels[..i])
    {
      assert g.labels[..i + 1][..i] == g.labels[..i];
      labels := labels[g.labels[i].key := g.labels[i].value];
    }
    assert g.labels[..|g.labels|] == g.labels;
    var taints := [];
    for i := 0 to |g.taints|
      invariant taints == InSpecShape(g.taints[..i])
    {
      var t := g.taints[i];
      assert g.taints[..i + 1] == g.taints[..i] + [t];
      taints := taints + [Taint(t.key, if t.value == "" then None else Some(t.value), t.effect)];
    }
    assert g.taints[..|g.taints|] == g.taints;
    m := Mirror(g.nodeCount, preset, labels, taints, Autoscaling(g.isAutoscaling, g.minSize.GetOr(0),
        g.maxSize.GetOr(0)),
                g.minSize.Some?, g.maxSize.Some?);
  }

  lemma {:induction false} LabelMapKeys(labels: seq<Label>)
    ensures forall k :: k in LabelMap(labels) <==> k in LabelKeys(labels)
  {
    var k := |labels| - 1;
    if k >= 0 {
      LabelMapKeys(labels[..k]);
      assert LabelKeys(labels) == LabelKeys(labels[..k]) + [labels[k].key];
    }
  }

  /** The last label's key is new to the map exactly when it repeats none before it. */
  lemma LastKey(labels: seq<Label>)
    requires |labels| > 0
    ensures var k := |labels| - 1;
            DistinctLabels(labels) <==> DistinctLabels(labels[..k]) && labels[k].key !in LabelMap(labels[..k])
  {
    var k := |labels| - 1;
    var before, x := labels[..k], labels[k];
    LabelMapKeys(before);
    forall i | 0 <= i < k ensures LabelKeys(before)[i] == labels[i].key {
    }
    if x.key in LabelMap(before) {
      var i :| 0 <= i < k && LabelKeys(before)[i] == x.key;
      assert labels[i].key == labels[k].key;
    } else {
      forall i | 0 <= i < k ensures labels[i].key != x.key {
        assert LabelKeys(before)[i] in LabelKeys(before);
      }
    }
  }

  /** The map is as large as the list exactly when no key repeats, and then it holds every pair. */
  lemma {:induction false} LabelMapHolds(labels: seq<Label>)
    ensures |LabelMap(labels)| <= |labels|
    ensures DistinctLabels(labels) <==> |LabelMap(labels)| == |labels|
    ensures DistinctLabels(labels) ==> forall l | l in labels ::
        l.key in LabelMap(labels) && LabelMap(labels)[l.key] == l.value
  {
    var k := |labels| - 1;
    if k >= 0 {
      var m := LabelMap(labels[..k]);
      LabelMapHolds(labels[..k]);
      LastKey(labels);
      MapGrows(m, labels[k].key, labels[k].value);
      assert labels == labels[..k] + [labels[k]];
    }
  }

  lemma MapGrows(m: map<string, string>, k: string, v: string)
    ensures |m[k := v]| == |m| + if k in m then 0 else 1
  {
    assert m[k := v].Keys == m.Keys + {k};
    if k in m { assert m.Keys + {k} == m.Keys; }
  }

  /** Declaring what status mirrors gives no metadata drift, exactly when the observed labels repeat no key. */
  lemma MirrorRoundTrip(s: Spec, g: Group, locked: Option<int>)
    requires s.labels == Mirrored(g, locked).labels && s.taints == Mirrored(g, locked).taints
    ensures WireTaints(s.taints) == g.taints
    ensures MetadataAgrees(s, g) <==> DistinctLabels(g.labels)
  {
    LabelMapHolds(g.labels);
    LabelMapKeys(g.labels);
    assert WireTaints(s.taints) == g.taints;
    forall l | l in g.labels ensures l.key in s.labels {
      var i :| 0 <= i < |g.labels| && g.labels[i] == l;
      assert LabelKeys(g.labels)[i] == l.key;
    }
  }

  // ---- the sizing guards, and rounds of Observe and Update ---------------------------------------------

  /**
   Each refusal, with the preset remembered as Observe leaves it: another kind of sizing is declared than is remembered
   or observed; or the group's preset is no longer the one Observe saw, which only a change in between can bring about.
   */
  lemma RefusalsIff(s: Spec, preset: Option<int>, configurator: Option<int>, seen: Group, g: Group)
    ensures var r := Refused(s, Locks(Mirrored(seen, preset).lockedPreset, configurator), g);
            var switched := if s.hasResources then seen.presetId != 0 || preset.Some? else configurator.Some?;
            var changed := && g.presetId != 0
                           && if seen.presetId != 0 then g.presetId != seen.presetId
                              else preset.Some? && preset != Some(g.presetId);
            && (r == Some(SizingSwitch) <==> switched)
            && (r == Some(PresetChange) <==> changed && !switched)
            && (r.None? <==> !switched && !changed)
  {
  }

  /** An Observe that remembers the preset and, if it reports drift, an Update of the same group. */
  ghost function Round(s: Spec, preset: Option<int>, configurator: Option<int>, g: Group): (Group, Option<int>) {
    var locks := Locks(Mirrored(g, preset).lockedPreset, configurator);
    (if UpToDate(s, locks, g) then g else Pass(s, locks, g), locks.preset)
  }

  /** What the next Observe says. */
  predicate Reported(s: Spec, preset: Option<int>, configurator: Option<int>, g: Group) {
    UpToDate(s, Locks(Mirrored(g, preset).lockedPreset, configurator), g)
  }

  predicate WantsAutoscaler(s: Spec) {
    s.autoscaling.Some? && s.autoscaling.value.enabled
  }

  /** The autoscaler runs between the declared bounds, or it is off and the count is the declared one. */
  predicate SizeIs(s: Spec, g: Group) {
    if WantsAutoscaler(s) then
      && g.isAutoscaling && g.minSize == Some(s.autoscaling.value.minSize)
      && g.maxSize == Some(s.autoscaling.value.maxSize)
    else !g.isAutoscaling && g.nodeCount == s.nodeCount
  }

  /** The drift check, past the sizing kinds: metadata by its own check, and the size as declared. */
  lemma UpToDateIff(s: Spec, locks: Locks, g: Group)
    ensures UpToDate(s, locks, g) <==>
            && !(s.presetName.Some? && locks.configurator.Some?) && !(s.hasResources && locks.preset.Some?)
            && MetadataAgrees(s, g) && SizeIs(s, g)
  {
  }

  /** The declared kind of sizing is the only one remembered or observed. */
  predicate KeepsSizing(s: Spec, preset: Option<int>, configurator: Option<int>, g: Group) {
    if s.hasResources then g.presetId == 0 && preset.None? else configurator.None?
  }

  lemma RoundIsPass(s: Spec, preset: Option<int>, configurator: Option<int>, g: Group)
    requires KeepsSizing(s, preset, configurator, g) && s.presetName.Some? != s.hasResources
    ensures var (h, lock) := Round(s, preset, configurator, g);
            && h.presetId == g.presetId && KeepsSizing(s, lock, configurator, h) && MetadataAgrees(s, h)
            && (DeclaredOn(s) ==> h.isAutoscaling && BoundsAgree(s.autoscaling.value, h))
            && (!DeclaredOn(s) ==>
                  !h.isAutoscaling && h.nodeCount == if g.isAutoscaling then g.nodeCount else s.nodeCount)
  {
    hide MetadataAgrees, Writes, AppliedAll, BoundsAgree;
    RefusalsIff(s, preset, configurator, g, g);
    OnePass(s, Locks(Mirrored(g, preset).lockedPreset, configurator), g);
  }

  /**
   Rounds from any group and memory: with the sizing kept, two always end up to date, and one does unless it has to
   switch an autoscaler off over a wrong count; with another kind remembered or observed none ever does or writes.
   */
  lemma RoundsConvergeIff(s: Spec, preset: Option<int>, configurator: Option<int>, g: Group)
    requires s.presetName.Some? != s.hasResources
    ensures var (h, lock) := Round(s, preset, configurator, g);
            var (h2, lock2) := Round(s, lock, configurator, h);
            && (KeepsSizing(s, preset, configurator, g) ==>
                  && Reported(s, lock2, configurator, h2)
                  && MetadataAgrees(s, h2) && SizeIs(s, h2)
                  && (Reported(s, lock, configurator, h) <==>
                        WantsAutoscaler(s) || !g.isAutoscaling || g.nodeCount == s.nodeCount))
            && (!KeepsSizing(s, preset, configurator, g) ==>
                  h == g && !Reported(s, lock, configurator, h) && !KeepsSizing(s, lock, configurator, h))
  {
    hide MetadataAgrees, BoundsAgree;
    RefusalsIff(s, preset, configurator, g, g);
    if KeepsSizing(s, preset, configurator, g) {
      var (h, lock) := Round(s, preset, configurator, g);
      RoundIsPass(s, preset, configurator, g);
      RoundIsPass(s, lock, configurator, h);
      var (h2, lock2) := Round(s, lock, configurator, h);
      UpToDateIff(s, Locks(Mirrored(h2, lock2).lockedPreset, configurator), h2);
    }
  }

  /**
   Declaring everything status mirrors leaves nothing to do, exactly when observed labels repeat no key and a running
   autoscaler reports both its bounds.
   */
  lemma MirrorIsUpToDateIff(s: Spec, g: Group, locked: Option<int>, configurator: Option<int>)
    requires var m := Mirrored(g, locked);
             && s.labels == m.labels && s.taints == m.taints && s.nodeCount == m.nodeCount
             && s.autoscaling == Some(m.autoscaling)
             && KeepsSizing(s, locked, configurator, g) && s.presetName.Some? != s.hasResources
    ensures var m := Mirrored(g, locked);
            UpToDate(s, Locks(m.lockedPreset, configurator), g) <==>
            DistinctLabels(g.labels) && (g.isAutoscaling ==> m.hasMin && m.hasMax)
    ensures var m := Mirrored(g, locked);
            && m.autoscaling.enabled == g.isAutoscaling
            && g.minSize == (if m.hasMin then Some(m.autoscaling.minSize) else None)
            && g.maxSize == (if m.hasMax then Some(m.autoscaling.maxSize) else None)
            && (!m.hasMin ==> m.autoscaling.minSize == 0) && (!m.hasMax ==> m.autoscaling.maxSize == 0)
  {
    hide MetadataAgrees, LabelMap, InSpecShape, DistinctLabels;
    MirrorRoundTrip(s, g, locked);
  }

  // ---- readiness -------------------------------------------------------------------------------------

  datatype Ready = Available | Creating | Reconciling | UpstreamFailed

  predicate Contains(s: string, part: string) {
    |part| <= |s| && (s[..|part|] == part || (|s| > 0 && Contains(s[1..], part)))
  }

  predicate NodeFailed(status: string) {
    Contains(ToLower(status), "error") || Contains(ToLower(status), "fail")
  }

  predicate NodeActive(status: string) {
    var s := ToLower(status);
    Contains(s, "active") || Contains(s, "started") || Contains(s, "running") || Contains(s, "ready") || s == "on"
  }

  function ActiveCount(nodes: seq<string>): nat {
    if |nodes| == 0 then 0 else ActiveCount(nodes[..|nodes| - 1]) + if NodeActive(nodes[|nodes| - 1]) then 1 else 0
  }

  predicate At(s: string, part: string, i: int) {
    0 <= i <= |s| - |part| && s[i..i + |part|] == part
  }

  /** The status has the word somewhere, in any case. */
  predicate Says(status: string, word: string) {
    exists i | 0 <= i <= |status| :: At(ToLower(status), word, i)
  }

  predicate SaysFailed(status: string) {
    Says(status, "error") || Says(status, "fail")
  }

  predicate SaysActive(status: string) {
    || Says(status, "active") || Says(status, "started") || Says(status, "running") || Says(status, "ready")
    || ToLower(status) == "on"
  }

  /** The listed nodes that are up. */
  function ActiveOnes(nodes: seq<string>): set<int> {
    set i | 0 <= i < |nodes| && SaysActive(nodes[i])
  }

  lemma {:induction false} ContainsIff(s: string, part: string)
    ensures Contains(s, part) <==> exists i :: At(s, part, i)
  {
    if |part| <= |s| {
      assert s[..|part|] == s[0..0 + |part|];
      assert At(s, part, 0) <==> s[..|part|] == part;
      if |s| > 0 {
        ContainsIff(s[1..], part);
        forall i | At(s[1..], part, i) ensures At(s, part, i + 1) {
          assert s[1..][i..i + |part|] == s[i + 1..i + 1 + |part|];
        }
        forall i | i > 0 && At(s, part, i) ensures At(s[1..], part, i - 1) {
          assert s[1..][i - 1..i - 1 + |part|] == s[i..i + |part|];
        }
      }
      if i :| At(s, part, i) {
        if i == 0 { assert s[..|part|] == part; } else { assert At(s[1..], part, i - 1); }
      }
    }
  }

  lemma SaysIff(status: string, word: string)
    ensures Contains(ToLower(status), word) <==> Says(status, word)
  {
    ContainsIff(ToLower(status), word);
  }

  lemma NodeWords(status: string)
    ensures NodeFailed(status) <==> SaysFailed(status)
    ensures NodeActive(status) <==> SaysActive(status)
  {
    SaysIff(status, "error");
    SaysIff(status, "fail");
    SaysIff(status, "active");
    SaysIff(status, "started");
    SaysIff(status, "running");
    SaysIff(status, "ready");
  }

  lemma ActiveOnesStep(nodes: seq<string>, k: nat)
    requires |nodes| == k + 1
    ensures |ActiveOnes(nodes)| == |ActiveOnes(nodes[..k])| + if SaysActive(nodes[k]) then 1 else 0
  {
    hide SaysActive;
    var before := ActiveOnes(nodes[..k]);
    assert k !in before;
    assert ActiveOnes(nodes) == if SaysActive(nodes[k]) then before + {k} else before;
  }

  lemma {:induction false} ActiveCountIs(nodes: seq<string>)
    ensures ActiveCount(nodes) == |ActiveOnes(nodes)|
  {
    hide SaysActive, NodeActive, ActiveOnes;
    var k := |nodes| - 1;
    if k < 0 {
      NoneActive(nodes);
    } else {
      ActiveCountIs(nodes[..k]);
      NodeWords(nodes[k]);
      ActiveOnesStep(nodes, k);
    }
  }

  lemma NoneActive(nodes: seq<string>)
    requires nodes == []
    ensures ActiveOnes(nodes) == {}
  {
  }

  method ReadyCondition(upToDate: bool, zeroOk: bool, declared: int, nodes: seq<string>) returns (r: Ready)
    ensures r == UpstreamFailed <==> exists n | n in nodes :: SaysFailed(n)
    ensures r == Available <==>
            && (forall n | n in nodes :: !SaysFailed(n)) && upToDate
            && if declared == 0 && nodes == [] then zeroOk else |ActiveOnes(nodes)| >= declared
    ensures r == Creating <==> upToDate && declared == 0 && nodes == [] && !zeroOk
  {
    hide NodeFailed, NodeActive, SaysFailed, SaysActive;
    forall n ensures NodeFailed(n) <==> SaysFailed(n) { NodeWords(n); }
    ActiveCountIs(nodes);
    for i := 0 to |nodes|
      invariant forall j | 0 <= j < i :: !NodeFailed(nodes[j])
    {
      if NodeFailed(nodes[i]) { return UpstreamFailed; }
    }
    if !upToDate { return Reconciling; }
    if declared == 0 && |nodes| == 0 { return if zeroOk then Available else Creating; }
    var active := 0;
    for i := 0 to |nodes|
      invariant active == ActiveCount(nodes[..i])
    {
      assert nodes[..i + 1][..i] == nodes[..i];
      if NodeActive(nodes[i]) { active := active + 1; }
    }
    assert nodes[..|nodes|] == nodes;
    return if active < declared then Reconciling else Available;
  }
}
