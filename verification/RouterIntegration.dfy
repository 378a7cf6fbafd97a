/** Linking a cluster to its declared router, moving the link, and removing it again. */
module RouterIntegration {
  import opened Wrappers
  import opened Text

  datatype Parent = Parent(kind: string, id: int)
  datatype Network = Network(id: string, natIp: Option<string>)
  datatype Router = Router(id: string, parents: seq<Parent>, networks: seq<Network>)

  /** What one pass over the router list says. */
  datatype Integration = Integration(integratedWith: string, declaredFound: bool, declaredHasNet: bool,
                                     declaredHasNat: bool, netKnown: bool)
  datatype Wait = RouterMissing | NotAttached | NoNat

  /** The persisted bookkeeping: the router recorded as integrated, the mirrored flag, the mirrored network. */
  datatype Status = Status(record: Option<string>, integrated: Option<bool>, network: Option<string>)
  datatype World = World(routers: seq<Router>, status: Status)

  /** What a reconcile is given: the resolved router and network ("" for none) and whether the list can be read. */
  datatype Input = Input(declared: string, network: string, readable: bool)

  /** The fate of a PATCH. */
  datatype Answer = Accepted | Lost | Refused

  /** A PATCH carries a router id, or null to detach. */
  type Patch = Option<string>

  // ---- reading the router list ----------------------------------------------------------

  predicate Lists(r: Router, cluster: int) {
    Parent("k8s", cluster) in r.parents
  }

  predicate NatSet(n: Network) {
    n.natIp.GetOr("") != ""
  }

  /** The last router that lists the cluster, "" when none does. */
  function LinkedTo(routers: seq<Router>, cluster: int): string {
    var k := |routers| - 1;
    if k < 0 then "" else if Lists(routers[k], cluster) then routers[k].id else LinkedTo(routers[..k], cluster)
  }

  predicate Attaches(r: Router, network: string) {
    exists n | n in r.networks :: n.id == network
  }

  /** NAT on the last attachment of the network. */
  function NatOn(networks: seq<Network>, network: string, otherwise: bool): bool {
    var k := |networks| - 1;
    if k < 0 then otherwise
    else if networks[k].id == network then NatSet(networks[k])
    else NatOn(networks[..k], network, otherwise)
  }

  function DeclaredNat(routers: seq<Router>, declared: string, network: string): bool {
    var k := |routers| - 1;
    if k < 0 then false
    else
      var before := DeclaredNat(routers[..k], declared, network);
      if declared != "" && routers[k].id == declared then NatOn(routers[k].networks, network, before) else before
  }

  predicate Found(routers: seq<Router>, declared: string) {
    declared != "" && exists r | r in routers :: r.id == declared
  }

  predicate FoundAttached(routers: seq<Router>, declared: string, network: string) {
    declared != "" && exists r | r in routers :: r.id == declared && Attaches(r, network)
  }

  function NetworkOf(i: Input, st: Status): string {
    if i.network == "" then st.network.GetOr("") else i.network
  }

  function Reading(routers: seq<Router>, cluster: int, declared: string, network: string): Integration {
    Integration(LinkedTo(routers, cluster), Found(routers, declared), FoundAttached(routers, declared, network),
                DeclaredNat(routers, declared, network), network != "")
  }

  lemma ReadOneMore(routers: seq<Router>, i: nat, cluster: int, declared: string, network: string)
    requires i < |routers|
    ensures var r, before, after := routers[i], routers[..i], routers[..i + 1];
            var ours := declared != "" && r.id == declared;
            && LinkedTo(after, cluster) == (if Lists(r, cluster) then r.id else LinkedTo(before, cluster))
            && Found(after, declared) == (ours || Found(before, declared))
            && FoundAttached(after, declared, network)
                == ((ours && Attaches(r, network)) || FoundAttached(before, declared, network))
            && DeclaredNat(after, declared, network) ==
               if ours then NatOn(r.networks, network, DeclaredNat(before, declared, network))
                   else DeclaredNat(before, declared, network)
  {
    var before, after := routers[..i], routers[..i + 1];
    assert after == before + [routers[i]] && after[..i] == before;
    assert forall x :: x in after <==> x in before || x == routers[i];
  }

  lemma NatOneMore(networks: seq<Network>, j: nat, network: string, otherwise: bool)
    requires j < |networks|
    ensures NatOn(networks[..j + 1], network, otherwise) ==
            if networks[j].id == network then NatSet(networks[j]) else NatOn(networks[..j], network, otherwise)
    ensures networks[..j + 1] == networks[..j] + [networks[j]]
  {
    assert networks[..j + 1][..j] == networks[..j];
  }

  method ReadIntegrationState(routers: seq<Router>, cluster: int, declared: string, network: string)
    returns (st: Integration)
    ensures st == Reading(routers, cluster, declared, network)
  {
    var integratedWith, found, hasNet, hasNat := "", false, false, false;
    for i := 0 to |routers|
      invariant integratedWith == LinkedTo(routers[..i], cluster)
      invariant found == Found(routers[..i], declared)
      invariant hasNet == FoundAttached(routers[..i], declared, network)
      invariant hasNat == DeclaredNat(routers[..i], declared, network)
    {
      var r := routers[i];
      ReadOneMore(routers, i, cluster, declared, network);
      for j := 0 to |r.parents|
        invariant integratedWith == if Parent("k8s", cluster) in r.parents[..j] then r.id
            else LinkedTo(routers[..i], cluster)
      {
        var p := r.parents[j];
        if p.kind == "k8s" && p.id == cluster { integratedWith := r.id; }
      }
      assert r.parents[..|r.parents|] == r.parents;
      if declared != "" && r.id == declared {
        found := true;
        ghost var hadNet, hadNat := hasNet, hasNat;
        for j := 0 to |r.networks|
          invariant hasNet == (hadNet || exists n | n in r.networks[..j] :: n.id == network)
          invariant hasNat == NatOn(r.networks[..j], network, hadNat)
        {
          var n := r.networks[j];
          NatOneMore(r.networks, j, network, hadNat);
          if n.id == network { hasNet, hasNat := true, NatSet(n); }
        }
        assert r.networks[..|r.networks|] == r.networks;
      }
    }
    assert routers[..|routers|] == routers;
    st := Integration(integratedWith, found, hasNet, hasNat, network != "");
  }

  /** Why the declared router cannot serve the cluster's network yet. */
  function WaitFor(st: Integration): Option<Wait> {
    if !st.declaredFound then Some(RouterMissing)
    else if st.netKnown && !st.declaredHasNet then Some(NotAttached)
    else if st.netKnown && !st.declaredHasNat then Some(NoNat)
    else None
  }

  // ---- the two reconcile halves -----------------------------------------------------------

  /** Nothing declared and nothing recorded: the list is not even read. */
  predicate NeverDeclared(declared: string, st: Status) {
    declared == "" && st.record.GetOr("") == ""
  }

  function ObserveStep(w: World, cluster: int, i: Input): (World, bool) {
    var st := Reading(w.routers, cluster, i.declared, NetworkOf(i, w.status));
    if NeverDeclared(i.declared, w.status) || !i.readable then (w, false)
    else if i.declared != "" then
      var linked := st.integratedWith == i.declared;
      if linked then (w.(status := w.status.(record := Some(i.declared), integrated := Some(true))), false)
      else (w.(status := w.status.(integrated := Some(false))), WaitFor(st).None?)
    else if st.integratedWith != "" then (w.(status := w.status.(integrated := Some(true))), true)
    else (w.(status := w.status.(record := None, integrated := Some(false))), false)
  }

  /** The PATCH an Update sends, if any. */
  function Planned(w: World, cluster: int, i: Input): Option<Patch> {
    var st := Reading(w.routers, cluster, i.declared, NetworkOf(i, w.status));
    if NeverDeclared(i.declared, w.status) || !i.readable then None
    else if i.declared != "" then
      if st.integratedWith != i.declared && WaitFor(st).None? then Some(Some(i.declared)) else None
    else if st.integratedWith != "" then Some(None)
    else None
  }

  /** What an accepted PATCH does: the cluster is listed by the target and by nobody else. */
  function Relinked(routers: seq<Router>, cluster: int, target: Patch): seq<Router> {
    seq(|routers|, k requires 0 <= k < |routers| =>
      var r := routers[k];
      var rest := Without(r.parents, Parent("k8s", cluster));
      r.(parents := if target == Some(r.id) then rest + [Parent("k8s", cluster)] else rest))
  }

  function StatusAfter(w: World, cluster: int, i: Input, answer: Answer): Status {
    match Planned(w, cluster, i)
    case Some(p) =>
      if answer != Accepted then w.status
      else if p.Some? then w.status.(record := p)
      else w.status.(record := None, integrated := Some(false))
    case None =>
      if !NeverDeclared(i.declared, w.status) && i.readable && i.declared == "" then w.status.(record := None)
          else w.status
  }

  function UpdateStep(w: World, cluster: int, i: Input, answer: Answer): World {
    var p := Planned(w, cluster, i);
    World(if p.Some? && answer != Refused then Relinked(w.routers, cluster, p.value) else w.routers,
          StatusAfter(w, cluster, i, answer))
  }

  class IntegrationController {
    const cluster: int
    var routers: seq<Router>
    var record: Option<string>
    var integrated: Option<bool>
    var network: Option<string>
    var wait: Option<Wait>

    function State(): World
      reads this
    {
      World(routers, Status(record, integrated, network))
    }

    constructor (id: int, upstream: seq<Router>, net: Option<string>)
      ensures cluster == id && State() == World(upstream, Status(None, None, net))
    {
      cluster, routers, record, integrated, network, wait := id, upstream, None, None, net, None;
    }

    /** Mirrors the link and reports drift; a wait is a condition, not drift. */
    method Observe(i: Input) returns (drift: bool)
      modifies this
      ensures (State(), drift) == ObserveStep(old(State()), cluster, i)
      ensures wait != old(wait) ==> wait.Some? && !drift && integrated == Some(false)
    {
      if i.declared == "" && (record.None? || record.value == "") { return false; }
      if !i.readable { return false; }
      var net := if i.network == "" && network.Some? then network.value else i.network;
      var st := ReadIntegrationState(routers, cluster, i.declared, net);
      if i.declared != "" {
        integrated := Some(st.integratedWith == i.declared);
        if integrated.value {
          record := Some(i.declared);
          return false;
        }
        var w := WaitFor(st);
        if w.Some? {
          wait := w;
          return false;
        }
        return true;
      }
      integrated := Some(st.integratedWith != "");
      if !integrated.value {
        record := None;
        return false;
      }
      return true;
    }

    /** Sends at most one PATCH; `ok` is the returned error's absence. */
    method Update(i: Input, answer: Answer) returns (sent: Option<Patch>, ok: bool)
      modifies this
      ensures State() == UpdateStep(old(State()), cluster, i, answer)
      ensures sent == Planned(old(State()), cluster, i)
      ensures ok <==>
              NeverDeclared(i.declared, old(State()).status) || (i.readable && (sent.Some? ==> answer.Accepted?))
    {
      if i.declared == "" && (record.None? || record.value == "") { return None, true; }
      if !i.readable { return None, false; }
      var net := if i.network == "" && network.Some? then network.value else i.network;
      var st := ReadIntegrationState(routers, cluster, i.declared, net);
      if i.declared != "" && st.integratedWith != i.declared {
        if WaitFor(st).Some? { return None, true; }
        if answer != Refused { routers := Relinked(routers, cluster, Some(i.declared)); }
        if answer != Accepted { return Some(Some(i.declared)), false; }
        record := Some(i.declared);
        return Some(Some(i.declared)), true;
      } else if i.declared == "" && st.integratedWith != "" {
        if answer != Refused { routers := Relinked(routers, cluster, None); }
        if answer != Accepted { return Some(None), false; }
        record, integrated := None, Some(false);
        return Some(None), true;
      } else if i.declared == "" {
        record := None;
      }
      return None, true;
    }
  }

  // ---- agreement ---------------------------------------------------------------------------

  /**
   On one snapshot Observe reports drift exactly when Update sends a PATCH, before or after Observe's own bookkeeping.
   */
  lemma DriftIffPatch(w: World, cluster: int, i: Input)
    ensures ObserveStep(w, cluster, i).1 <==> Planned(w, cluster, i).Some?
    ensures Planned(ObserveStep(w, cluster, i).0, cluster, i) == Planned(w, cluster, i)
  {
  }

  /**
   While the gate is closed, or the list cannot be read, Observe is calm, Update sends nothing and the link stands.
   */
  lemma ClosedGateIsQuiet(w: World, cluster: int, i: Input, answer: Answer)
    requires i.declared != "" && LinkedTo(w.routers, cluster) != i.declared
    requires !i.readable || WaitFor(Reading(w.routers, cluster, i.declared, NetworkOf(i, w.status))).Some?
    ensures !ObserveStep(w, cluster, i).1 && UpdateStep(w, cluster, i, answer) == w
  {
  }

  // ---- the bookkeeping ------------------------------------------------------------------------

  /**
   A readable Observe of a cluster with a declaration or a record mirrors whether the link is as declared, or whether
   there still is one; it records a declared link and forgets a completed detach, and writes nothing else.
   */
  lemma ObserveMirrors(w: World, cluster: int, i: Input)
    ensures var (after, drift) := ObserveStep(w, cluster, i);
            var link, active := LinkedTo(w.routers, cluster), i.readable &&
                (i.declared != "" || (w.status.record.Some? && w.status.record != Some("")));
            && after.routers == w.routers && after.status.network == w.status.network
            && (!active ==> after == w && !drift)
            && (active && i.declared != "" ==>
                  && after.status.integrated == Some(link == i.declared)
                  && after.status.record == if link == i.declared then Some(i.declared) else w.status.record)
            && (active && i.declared == "" ==>
                  && after.status.integrated == Some(link != "") && drift == (link != "")
                  && after.status.record == if link == "" then None else w.status.record)
  {
  }

  /** An Update records exactly an accepted attach, and forgets exactly an accepted or already completed detach. */
  lemma UpdateRecords(w: World, cluster: int, i: Input, answer: Answer)
    ensures var before, after := w.status, UpdateStep(w, cluster, i, answer).status;
            var sent := Planned(w, cluster, i);
            var active := i.readable && (i.declared != "" || (before.record.Some? && before.record != Some("")));
            var gone := active && i.declared == "" && (answer == Accepted || LinkedTo(w.routers, cluster) == "");
            && after.network == before.network
            && after.record == (if i.declared != "" && sent.Some? && answer == Accepted then Some(i.declared)
                                else if gone then None else before.record)
            && after.integrated ==
               (if gone && LinkedTo(w.routers, cluster) != "" then Some(false) else before.integrated)
            && (i.declared == "" ==>
                  sent == if active && LinkedTo(w.routers, cluster) != "" then Some(None) else None)
  {
  }

  // ---- the gate, read off the list -------------------------------------------------------------

  /** The network an attachment is checked for: the resolved one, else the mirrored one; "" when unknown. */
  predicate Checks(i: Input, st: Status, network: string) {
    if i.network != "" then network == i.network
    else network == match st.network case Some(n) => n case None => ""
  }

  /** Of all attachments of the network on routers of this id the last, in list order. */
  predicate LastAttachment(rs: seq<Router>, id: string, network: string, k: int, n: int) {
    && 0 <= k < |rs| && rs[k].id == id && 0 <= n < |rs[k].networks| && rs[k].networks[n].id == network
    && (forall m | n < m < |rs[k].networks| :: rs[k].networks[m].id != network)
    && forall j | k < j < |rs| && rs[j].id == id :: forall m | 0 <= m < |rs[j].networks| ::
         rs[j].networks[m].id != network
  }

  predicate HasNat(n: Network) {
    n.natIp.Some? && n.natIp.value != ""
  }

  lemma {:induction false} NatIs(ns: seq<Network>, network: string, otherwise: bool)
    ensures (forall m | 0 <= m < |ns| :: ns[m].id != network) ==> NatOn(ns, network, otherwise) == otherwise
    ensures forall n | 0 <= n < |ns| && ns[n].id == network && forall m | n < m < |ns| :: ns[m].id != network ::
              NatOn(ns, network, otherwise) == HasNat(ns[n])
  {
    var k := |ns| - 1;
    if k >= 0 && ns[k].id != network {
      NatIs(ns[..k], network, otherwise);
      forall n | 0 <= n < |ns| && ns[n].id == network && forall m | n < m < |ns| :: ns[m].id != network
        ensures NatOn(ns, network, otherwise) == HasNat(ns[n])
      {
        assert ns[..k][n] == ns[n];
        assert forall m | n < m < k :: ns[..k][m] == ns[m];
      }
    }
  }

  lemma {:induction false} LastOn(ns: seq<Network>, network: string) returns (n: int)
    requires exists x :: x in ns && x.id == network
    ensures 0 <= n < |ns| && ns[n].id == network && forall m | n < m < |ns| :: ns[m].id != network
  {
    n := |ns| - 1;
    if ns[n].id != network {
      assert ns == ns[..n] + [ns[n]];
      n := LastOn(ns[..n], network);
    }
  }

  lemma EarlierAttachment(rs: seq<Router>, id: string, network: string, k: int, n: int)
    requires |rs| > 0 && LastAttachment(rs[..|rs| - 1], id, network, k, n)
    requires rs[|rs| - 1].id == id ==> !Attaches(rs[|rs| - 1], network)
    ensures LastAttachment(rs, id, network, k, n) && rs[k] == rs[..|rs| - 1][k]
  {
    var r := rs[|rs| - 1];
    forall m | r.id == id && 0 <= m < |r.networks| ensures r.networks[m].id != network {
      assert r.networks[m] in r.networks;
    }
  }

  /** The pass over the list ends with the NAT of the last attachment. */
  lemma {:induction false} DeclaredNatIs(rs: seq<Router>, id: string, network: string) returns (k: int, n: int)
    requires id != ""
    ensures FoundAttached(rs, id, network) ==>
              LastAttachment(rs, id, network, k, n) && DeclaredNat(rs, id, network) == HasNat(rs[k].networks[n])
    ensures !FoundAttached(rs, id, network) ==> !DeclaredNat(rs, id, network)
  {
    hide FoundAttached, DeclaredNat, LastAttachment, NatOn, HasNat;
    var last := |rs| - 1;
    k, n := 0, 0;
    if last < 0 {
      NothingAttached(id, network);
    } else {
      var r, before := rs[last], rs[..last];
      ReadOneMore(rs, last, 0, id, network);
      assert rs[..last + 1] == rs;
      if r.id == id && Attaches(r, network) {
        k := last;
        n := LastOn(r.networks, network);
        NatIs(r.networks, network, DeclaredNat(before, id, network));
        assert LastAttachment(rs, id, network, k, n) by { LastIsThere(rs, r, id, network, n); }
      } else {
        k, n := DeclaredNatIs(before, id, network);
        if r.id == id { NoneAttached(r, network, DeclaredNat(before, id, network)); }
        if FoundAttached(before, id, network) { EarlierAttachment(rs, id, network, k, n); }
      }
    }
  }

  lemma NothingAttached(id: string, network: string)
    ensures !FoundAttached([], id, network) && !DeclaredNat([], id, network)
  {
  }

  lemma LastIsThere(rs: seq<Router>, r: Router, id: string, network: string, n: int)
    requires |rs| > 0 && r == rs[|rs| - 1] && r.id == id && 0 <= n < |r.networks| && r.networks[n].id == network
    requires forall m | n < m < |r.networks| :: r.networks[m].id != network
    ensures LastAttachment(rs, id, network, |rs| - 1, n)
  {
  }

  lemma NoneAttached(r: Router, network: string, otherwise: bool)
    requires !Attaches(r, network)
    ensures NatOn(r.networks, network, otherwise) == otherwise
  {
    NatIs(r.networks, network, otherwise);
    assert forall m | 0 <= m < |r.networks| :: r.networks[m] in r.networks;
  }

  /** Why an attach waits: no router of that id; or the network is known, and not attached, or without NAT. */
  lemma WaitsIff(rs: seq<Router>, cluster: int, id: string, network: string)
    requires id != ""
    ensures var wait := WaitFor(Reading(rs, cluster, id, network));
            var listed, known := exists r :: r in rs && r.id == id, network != "";
            var attached := exists r, n :: r in rs && r.id == id && n in r.networks && n.id == network;
            && (wait == Some(RouterMissing) <==> !listed)
            && (wait == Some(NotAttached) <==> listed && known && !attached)
            && (wait == Some(NoNat) <==>
                  known && exists k, n :: LastAttachment(rs, id, network, k, n) && !HasNat(rs[k].networks[n]))
            && (wait.None? <==>
                  && listed
                  && (known ==> exists k, n :: LastAttachment(rs, id, network, k, n) && HasNat(rs[k].networks[n])))
  {
    hide LastAttachment, HasNat, DeclaredNat;
    var k, n := DeclaredNatIs(rs, id, network);
    forall j, m | LastAttachment(rs, id, network, j, m)
      ensures FoundAttached(rs, id, network) && j == k && m == n
    {
      AttachmentIsThere(rs, id, network, j, m);
      OneLast(rs, id, network, j, m, k, n);
    }
  }

  lemma OneLast(rs: seq<Router>, id: string, network: string, j: int, m: int, k: int, n: int)
    requires LastAttachment(rs, id, network, j, m) && LastAttachment(rs, id, network, k, n)
    ensures j == k && m == n
  {
  }

  /**
   An attaching PATCH is sent exactly when the list can be read, the last router that lists the cluster is not the
   declared one, and the declared one is listed and serves the network, as far as that is known, with NAT.
   */
  lemma AttachIff(w: World, cluster: int, i: Input, network: string)
    requires i.declared != "" && Checks(i, w.status, network)
    requires forall r | r in w.routers :: r.id != ""
    ensures var rs := w.routers;
            Planned(w, cluster, i) == Some(Some(i.declared)) <==>
            && i.readable
            && !(exists k | 0 <= k < |rs| :: && rs[k].id == i.declared && Parent("k8s", cluster) in rs[k].parents
                  && forall j | k < j < |rs| :: Parent("k8s", cluster) !in rs[j].parents)
            && (exists r :: r in rs && r.id == i.declared)
            && (network != "" ==>
                  exists k, n :: LastAttachment(rs, i.declared, network, k, n) && HasNat(rs[k].networks[n]))
  {
    hide LastAttachment, HasNat, DeclaredNat, FoundAttached;
    WaitsIff(w.routers, cluster, i.declared, network);
    LinkedToIs(w.routers, cluster, i.declared);
    if network != "" {
      forall k, n | LastAttachment(w.routers, i.declared, network, k, n)
        ensures exists r, n :: r in w.routers && r.id == i.declared && n in r.networks && n.id == network
      {
        AttachmentIsThere(w.routers, i.declared, network, k, n);
      }
    }
  }

  lemma AttachmentIsThere(rs: seq<Router>, id: string, network: string, k: int, n: int)
    requires LastAttachment(rs, id, network, k, n)
    ensures exists r, n :: r in rs && r.id == id && n in r.networks && n.id == network
  {
    assert rs[k] in rs && rs[k].networks[n] in rs[k].networks;
  }

  lemma {:induction false} LinkedToIs(rs: seq<Router>, cluster: int, id: string)
    requires id != ""
    ensures LinkedTo(rs, cluster) == id <==>
            exists k | 0 <= k < |rs| :: && rs[k].id == id && Parent("k8s", cluster) in rs[k].parents
                  && forall j | k < j < |rs| :: Parent("k8s", cluster) !in rs[j].parents
  {
    var last := |rs| - 1;
    if last >= 0 && !Lists(rs[last], cluster) {
      LinkedToIs(rs[..last], cluster, id);
      assert forall j | 0 <= j < last :: rs[..last][j] == rs[j];
    }
  }

  // ---- the link --------------------------------------------------------------------------------

  predicate DistinctIds(routers: seq<Router>) {
    && (forall k | 0 <= k < |routers| :: routers[k].id != "")
    && (forall j, k | 0 <= j < k < |routers| :: routers[j].id != routers[k].id)
  }

  lemma {:induction false} LinkedToLists(routers: seq<Router>, cluster: int)
    requires forall k | 0 <= k < |routers| :: routers[k].id != ""
    ensures LinkedTo(routers, cluster) == "" <==> forall k | 0 <= k < |routers| :: !Lists(routers[k], cluster)
    ensures LinkedTo(routers, cluster) != "" ==>
              exists k | 0 <= k < |routers| :: Lists(routers[k], cluster) && routers[k].id == LinkedTo(routers, cluster)
  {
    var k := |routers| - 1;
    if k >= 0 && !Lists(routers[k], cluster) {
      LinkedToLists(routers[..k], cluster);
      assert forall j | 0 <= j < k :: routers[..k][j] == routers[j];
    }
  }

  lemma {:induction false} WithoutSpec(ps: seq<Parent>, p: Parent)
    ensures forall q :: q in Without(ps, p) <==> q in ps && q != p
  {
    if |ps| > 0 { WithoutSpec(ps[1..], p); }
  }

  lemma RelinkedRouter(routers: seq<Router>, cluster: int, target: Patch, k: nat)
    requires k < |routers|
    ensures var r := Relinked(routers, cluster, target)[k];
            && r.id == routers[k].id && r.networks == routers[k].networks
            && (Lists(r, cluster) <==> target == Some(r.id))
            && forall p | p != Parent("k8s", cluster) :: p in r.parents <==> p in routers[k].parents
  {
    WithoutSpec(routers[k].parents, Parent("k8s", cluster));
  }

  /**
   An accepted PATCH leaves the target as the only router that lists the cluster and touches no other parent or
   network.
   */
  lemma PatchRelinks(routers: seq<Router>, cluster: int, target: Patch)
    requires DistinctIds(routers) && (target.Some? ==> Found(routers, target.value))
    ensures DistinctIds(Relinked(routers, cluster, target))
    ensures LinkedTo(Relinked(routers, cluster, target), cluster) == target.GetOr("")
    ensures forall j, k | 0 <= j < k < |routers| ::
              !(Lists(Relinked(routers, cluster, target)[j], cluster)
                  && Lists(Relinked(routers, cluster, target)[k], cluster))
    ensures forall k | 0 <= k < |routers| ::
              && Relinked(routers, cluster, target)[k].networks == routers[k].networks
              && forall p | p != Parent("k8s", cluster) :: p in Relinked(routers, cluster, target)[k].parents <==>
                  p in routers[k].parents
  {
    var after := Relinked(routers, cluster, target);
    forall k | 0 <= k < |routers|
      ensures after[k].id == routers[k].id && (Lists(after[k], cluster) <==> target == Some(after[k].id))
           && after[k].networks == routers[k].networks
           && forall p | p != Parent("k8s", cluster) :: p in after[k].parents <==> p in routers[k].parents
    {
      RelinkedRouter(routers, cluster, target, k);
    }
    LinkedToLists(after, cluster);
    if target.Some? {
      var r :| r in routers && r.id == target.value;
      var k :| 0 <= k < |routers| && routers[k] == r;
      assert Lists(after[k], cluster);
    }
  }

  /** The gate is open: the declared router exists and, when the network is known, attaches it with NAT. */
  predicate GateOpen(w: World, cluster: int, i: Input) {
    i.declared == "" || WaitFor(Reading(w.routers, cluster, i.declared, NetworkOf(i, w.status))).None?
  }

  /**
   One Update whose PATCH reaches the upstream gives the declared link, or none; the next Observe is clean and the
   record matches.
   */
  lemma OneUpdateSettles(w: World, cluster: int, i: Input, answer: Answer)
    requires DistinctIds(w.routers) && i.readable && GateOpen(w, cluster, i) && answer != Refused
    requires !NeverDeclared(i.declared, w.status)
    ensures var (after, drift) := ObserveStep(UpdateStep(w, cluster, i, answer), cluster, i);
            && LinkedTo(after.routers, cluster) == i.declared && !drift
            && after.status.record.GetOr("") == i.declared
            && (i.declared != "" ==> after.status.integrated == Some(true))
  {
    if i.declared != "" {
      PatchRelinks(w.routers, cluster, Some(i.declared)) by { LinkImpliesFound(w, cluster, i); }
    } else {
      PatchRelinks(w.routers, cluster, None);
    }
  }

  lemma LinkImpliesFound(w: World, cluster: int, i: Input)
    requires i.declared != "" && GateOpen(w, cluster, i)
    ensures Found(w.routers, i.declared)
  {
  }

  // ---- whole runs ---------------------------------------------------------------------------------

  /** A reconcile, or the upstream changing under the controller. */
  datatype Event = Observing(i: Input) | Updating(i: Input, answer: Answer) | Upstream(routers: seq<Router>)

  function Step(w: World, cluster: int, e: Event): World {
    match e
    case Observing(i) => ObserveStep(w, cluster, i).0
    case Updating(i, answer) => UpdateStep(w, cluster, i, answer)
    case Upstream(routers) => w.(routers := routers)
  }

  /** The PATCHes a run sends. */
  function Sent(w: World, cluster: int, run: seq<Event>): seq<Patch>
    decreases run
  {
    if |run| == 0 then []
    else
      var p := if run[0].Updating? then Planned(w, cluster, run[0].i) else None;
      (if p.Some? then [p.value] else []) + Sent(Step(w, cluster, run[0]), cluster, run[1..])
  }

  function After(w: World, cluster: int, run: seq<Event>): World
    decreases run
  {
    if |run| == 0 then w else After(Step(w, cluster, run[0]), cluster, run[1..])
  }

  predicate Declares(e: Event, router: string) {
    !e.Upstream? && e.i.declared == router
  }

  predicate EverDeclared(run: seq<Event>, router: string) {
    exists e | e in run :: Declares(e, router)
  }

  /** Whatever is recorded was declared at some point. */
  predicate RecordDeclared(w: World, past: seq<Event>) {
    w.status.record.GetOr("") != "" ==> EverDeclared(past, w.status.record.value)
  }

  lemma StepKeepsRecordDeclared(w: World, cluster: int, past: seq<Event>, e: Event)
    requires RecordDeclared(w, past)
    ensures RecordDeclared(Step(w, cluster, e), past + [e])
  {
    var r := Step(w, cluster, e).status.record.GetOr("");
    if r != "" {
      if r == w.status.record.GetOr("") {
        var d :| d in past && Declares(d, r);
        assert d in past + [e];
      } else {
        assert e in past + [e] && Declares(e, r);
      }
    }
  }

  /** Every PATCH of a run sends a router some step declared, and even a detach needs an earlier declaration. */
  lemma {:induction false} PatchesNeedDeclarations(w: World, cluster: int, past: seq<Event>, run: seq<Event>)
    requires RecordDeclared(w, past)
    ensures forall p | p in Sent(w, cluster, run) :: p.Some? ==> p.value != "" && EverDeclared(past + run, p.value)
    ensures None in Sent(w, cluster, run) ==> exists r :: r != "" && EverDeclared(past + run, r)
    decreases run
  {
    if |run| > 0 {
      var e := run[0];
      StepKeepsRecordDeclared(w, cluster, past, e);
      PatchesNeedDeclarations(Step(w, cluster, e), cluster, past + [e], run[1..]);
      assert past + [e] + run[1..] == past + run;
      assert e in past + run;
      if e.Updating? && Planned(w, cluster, e.i).Some? {
        if Planned(w, cluster, e.i).value.Some? {
          assert Declares(e, e.i.declared);
        } else {
          var r := w.status.record.value;
          var d :| d in past && Declares(d, r);
          assert d in past + run && EverDeclared(past + run, r);
        }
      }
    }
  }

  /** A cluster that never had a router declared is never patched, whatever the upstream does. */
  lemma {:induction false} NeverDeclaredNeverPatched(w: World, cluster: int, run: seq<Event>)
    requires w.status.record.GetOr("") == "" && forall e | e in run :: e.Upstream? || e.i.declared == ""
    ensures Sent(w, cluster, run) == [] && After(w, cluster, run).status == w.status
    decreases run
  {
    if |run| > 0 {
      assert run[0] in run;
      NeverDeclaredNeverPatched(Step(w, cluster, run[0]), cluster, run[1..]);
    }
  }

  /**
   With the declaration gone, a recorded integration is detached from whichever router holds it, even one never
   declared.
   */
  lemma DetachIsRouterBlind(w: World, cluster: int, i: Input, answer: Answer)
    requires DistinctIds(w.routers) && i.declared == "" && i.readable && answer != Refused
    requires w.status.record.GetOr("") != ""
    ensures LinkedTo(UpdateStep(w, cluster, i, answer).routers, cluster) == ""
  {
    PatchRelinks(w.routers, cluster, None);
  }
}
