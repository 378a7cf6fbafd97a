/**
 The union of a router's explicit and selector-sourced network attachments, whatever order the networks are listed in.
 */
module RouterRefs {
  import opened Wrappers
  import opened Text

  // ---- what the cluster holds --------------------------------------------------------------

  datatype NetworkObject = NetworkObject(labels: map<string, string>, upstreamId: Option<string>, ready: bool)
  datatype AddressObject = AddressObject(ip: Option<string>, ready: bool)

  /** The namespace's objects by name, the order a list returns the networks in, the names that cannot be read. */
  datatype Namespace = Namespace(networks: map<string, NetworkObject>, listing: seq<string>, listable: bool,
                                 addresses: map<string, AddressObject>, unreadable: set<string>)

  /** The list holds the networks and nothing else. */
  ghost predicate Listed(ns: Namespace) {
    forall n :: n in ns.listing <==> n in ns.networks
  }

  // ---- what the router declares ----------------------------------------------------------------

  /** Labels that must match, or a selector that does not convert. */
  datatype Selector = MatchLabels(labels: map<string, string>) | Malformed
  datatype Nat = Nat(ip: Option<string>, ref: Option<string>)
  datatype Entry = Entry(networkId: Option<string>, networkRef: Option<string>, selector: Option<Selector>,
                         natFloatingIp: Option<Nat>, dhcp: bool, gateway: Option<string>, reserved: seq<string>)
  datatype Attachment = Attachment(id: string, natIp: string, dhcp: bool, gateway: Option<string>,
      reserved: seq<string>)
  datatype RefError = NotFound | NotReady | ReadFailed | EmptyEntry | EmptyNat | BadSelector | ListFailed

  // ---- resolving one reference -------------------------------------------------------------------

  predicate Usable(o: NetworkObject) {
    o.upstreamId.GetOr("") != "" && o.ready
  }

  function ResolveNetwork(ns: Namespace, name: string): Result<string, RefError> {
    if name in ns.unreadable then Err(ReadFailed)
    else if name !in ns.networks then Err(NotFound)
    else if !Usable(ns.networks[name]) then Err(NotReady)
    else Ok(ns.networks[name].upstreamId.value)
  }

  function ResolveAddress(ns: Namespace, name: string): Result<string, RefError> {
    if name in ns.unreadable then Err(ReadFailed)
    else if name !in ns.addresses then Err(NotFound)
    else if ns.addresses[name].ip.GetOr("") == "" || !ns.addresses[name].ready then Err(NotReady)
    else Ok(ns.addresses[name].ip.value)
  }

  function NetworkIdOf(ns: Namespace, e: Entry): Result<string, RefError> {
    if e.networkId.GetOr("") != "" then Ok(e.networkId.value)
    else if e.networkRef.Some? then ResolveNetwork(ns, e.networkRef.value)
    else Err(EmptyEntry)
  }

  function NatOf(ns: Namespace, e: Entry): Result<string, RefError> {
    if e.natFloatingIp.None? then Ok("")
    else if e.natFloatingIp.value.ip.GetOr("") != "" then Ok(e.natFloatingIp.value.ip.value)
    else if e.natFloatingIp.value.ref.Some? then ResolveAddress(ns, e.natFloatingIp.value.ref.value)
    else Err(EmptyNat)
  }

  function ResolveEntry(ns: Namespace, e: Entry): Result<Attachment, RefError> {
    match NetworkIdOf(ns, e)
    case Err(why) => Err(why)
    case Ok(id) =>
      match NatOf(ns, e)
      case Err(why) => Err(why)
      case Ok(ip) => Ok(Attachment(id, ip, e.dhcp, e.gateway, e.reserved))
  }

  predicate Matches(o: NetworkObject, labels: map<string, string>) {
    forall k | k in labels :: k in o.labels && o.labels[k] == labels[k]
  }

  /** The upstream ids of the usable matches, in list order. */
  function MatchIds(ns: Namespace, names: seq<string>, labels: map<string, string>): seq<string> {
    if |names| == 0 then []
    else
      var n := names[0];
      (if n in ns.networks && Matches(ns.networks[n], labels) && Usable(ns.networks[n])
       then [ns.networks[n].upstreamId.value] else []) + MatchIds(ns, names[1..], labels)
  }

  function ResolveSelector(ns: Namespace, s: Selector): Result<seq<string>, RefError> {
    if s.Malformed? then Err(BadSelector)
    else if !ns.listable then Err(ListFailed)
    else Ok(Sort(MatchIds(ns, ns.listing, s.labels)))
  }

  function Selected(e: Entry, ids: seq<string>): seq<Attachment> {
    seq(|ids|, i requires 0 <= i < |ids| => Attachment(ids[i], "", e.dhcp, e.gateway, e.reserved))
  }

  // ---- resolving the whole list ----------------------------------------------------------------------

  /** The explicit entries resolved in order, or the first error. */
  function Explicit(ns: Namespace, es: seq<Entry>): Result<seq<Attachment>, RefError> {
    var k := |es| - 1;
    if k < 0 then Ok([])
    else
      match Explicit(ns, es[..k])
      case Err(why) => Err(why)
      case Ok(before) =>
        if es[k].selector.Some? then Ok(before)
        else match ResolveEntry(ns, es[k])
             case Err(why) => Err(why)
             case Ok(a) => Ok(before + [a])
  }

  /** The selector entries expanded in order, or the first error. */
  function FromSelectors(ns: Namespace, es: seq<Entry>): Result<seq<Attachment>, RefError> {
    var k := |es| - 1;
    if k < 0 then Ok([])
    else
      match FromSelectors(ns, es[..k])
      case Err(why) => Err(why)
      case Ok(before) =>
        if es[k].selector.None? then Ok(before)
        else match ResolveSelector(ns, es[k].selector.value)
             case Err(why) => Err(why)
             case Ok(ids) => Ok(before + Selected(es[k], ids))
  }

  function Ids(list: seq<Attachment>): seq<string> {
    seq(|list|, i requires 0 <= i < |list| => list[i].id)
  }

  /** The last attachment for an id. */
  function LastFor(list: seq<Attachment>, id: string): Option<Attachment> {
    var k := |list| - 1;
    if k < 0 then None else if list[k].id == id then Some(list[k]) else LastFor(list[..k], id)
  }

  /** The first attachment for an id. */
  function FirstFor(list: seq<Attachment>, id: string): Option<Attachment> {
    var k := |list| - 1;
    if k < 0 then None
    else
      var before := FirstFor(list[..k], id);
      if before.None? && list[k].id == id then Some(list[k]) else before
  }

  /** The last explicit attachment, else the first selected one. */
  function Winner(explicit: seq<Attachment>, selected: seq<Attachment>, id: string): Option<Attachment> {
    if LastFor(explicit, id).Some? then LastFor(explicit, id) else FirstFor(selected, id)
  }

  /** Each id once, in order of first mention, with its winner. */
  ghost predicate IsUnion(r: seq<Attachment>, explicit: seq<Attachment>, selected: seq<Attachment>) {
    && Ids(r) == Dedupe(Ids(explicit) + Ids(selected))
    && forall a | a in r :: Winner(explicit, selected, a.id) == Some(a)
  }

  lemma DedupeSnoc(s: seq<string>, x: string)
    ensures Dedupe(s + [x]) == if x in s then Dedupe(s) else Dedupe(s) + [x]
  {
    assert (s + [x])[..|s|] == s;
  }

  lemma LastForSnoc(list: seq<Attachment>, a: Attachment, id: string)
    ensures LastFor(list + [a], id) == if a.id == id then Some(a) else LastFor(list, id)
    ensures FirstFor(list + [a], id) == if FirstFor(list, id).None? && a.id == id then Some(a) else FirstFor(list, id)
  {
    assert (list + [a])[..|list|] == list;
  }

  /** The map and the order agree with the lists seen so far. */
  ghost predicate Tracks(byId: map<string, Attachment>, order: seq<string>, explicit: seq<Attachment>,
      selected: seq<Attachment>) {
    && order == Dedupe(Ids(explicit) + Ids(selected))
    && (forall id :: id in byId <==> id in Ids(explicit) || id in Ids(selected))
    && forall id | id in byId :: Winner(explicit, selected, id) == Some(byId[id])
  }

  lemma TrackExplicit(byId: map<string, Attachment>, order: seq<string>, explicit: seq<Attachment>, a: Attachment)
    requires Tracks(byId, order, explicit, [])
    ensures Tracks(byId[a.id := a], if a.id in byId then order else order + [a.id], explicit + [a], [])
  {
    assert Ids(explicit + [a]) == Ids(explicit) + [a.id];
    assert Ids(explicit) + Ids([]) == Ids(explicit) && Ids(explicit + [a]) + Ids([]) == Ids(explicit) + [a.id];
    DedupeSnoc(Ids(explicit), a.id);
    forall id ensures LastFor(explicit + [a], id) == if a.id == id then Some(a) else LastFor(explicit, id) {
      LastForSnoc(explicit, a, id);
    }
  }

  lemma NoneForAbsent(list: seq<Attachment>, id: string)
    requires id !in Ids(list)
    ensures LastFor(list, id).None? && FirstFor(list, id).None?
  {
    if |list| > 0 {
      var k := |list| - 1;
      assert Ids(list)[k] == list[k].id;
      assert Ids(list[..k]) == Ids(list)[..k];
      NoneForAbsent(list[..k], id);
    }
  }

  lemma SomeForPresent(list: seq<Attachment>, id: string)
    requires id in Ids(list)
    ensures LastFor(list, id).Some? && FirstFor(list, id).Some?
  {
    var k := |list| - 1;
    if list[k].id != id {
      var i :| 0 <= i < |list| && Ids(list)[i] == id;
      assert Ids(list[..k])[i] == id;
      SomeForPresent(list[..k], id);
    } else if id in Ids(list[..k]) {
      SomeForPresent(list[..k], id);
    }
  }

  lemma TrackSelected(byId: map<string, Attachment>, order: seq<string>, explicit: seq<Attachment>,
      selected: seq<Attachment>, a: Attachment)
    requires Tracks(byId, order, explicit, selected)
    ensures Tracks(if a.id in byId then byId else byId[a.id := a], if a.id in byId then order else order + [a.id],
                   explicit, selected + [a])
  {
    hide LastFor, FirstFor, Dedupe;
    assert Ids(selected + [a]) == Ids(selected) + [a.id];
    assert Ids(explicit) + Ids(selected + [a]) == (Ids(explicit) + Ids(selected)) + [a.id];
    DedupeSnoc(Ids(explicit) + Ids(selected), a.id);
    forall id
      ensures FirstFor(selected + [a], id) == if FirstFor(selected, id).None? && a.id == id then Some(a)
          else FirstFor(selected, id)
    {
      LastForSnoc(selected, a, id);
    }
    if a.id !in byId {
      NoneForAbsent(explicit, a.id);
      NoneForAbsent(selected, a.id);
    }
  }

  method ResolveRouterRefs(ns: Namespace, es: seq<Entry>) returns (r: Result<seq<Attachment>, RefError>)
    ensures r.Ok? <==> Explicit(ns, es).Ok? && FromSelectors(ns, es).Ok?
    ensures r.Ok? ==> IsUnion(r.value, Explicit(ns, es).value, FromSelectors(ns, es).value)
    ensures r.Err? ==> r.error == if Explicit(ns, es).Err? then Explicit(ns, es).error else FromSelectors(ns, es).error
  {
    var failure, byId, order := FirstPass(ns, es);
    if failure.Some? { return Err(failure.value); }
    failure, byId, order := SecondPass(ns, es, byId, order, Explicit(ns, es).value);
    if failure.Some? { return Err(failure.value); }
    var out := EmitInOrder(byId, order, Explicit(ns, es).value, FromSelectors(ns, es).value);
    r := Ok(out);
  }

  /** Explicit entries: a repeated id keeps its place and takes the later entry. */
  method FirstPass(ns: Namespace, es: seq<Entry>)
    returns (failure: Option<RefError>, byId: map<string, Attachment>, order: seq<string>)
    ensures if failure.Some? then Explicit(ns, es) == Err(failure.value) else Explicit(ns, es).Ok?
    ensures failure.None? ==> Tracks(byId, order, Explicit(ns, es).value, [])
  {
    byId, order := map[], [];
    for i := 0 to |es|
      invariant Explicit(ns, es[..i]).Ok? && Tracks(byId, order, Explicit(ns, es[..i]).value, [])
    {
      assert es[..i + 1][..i] == es[..i];
      if es[i].selector.Some? { continue; }
      var res := ResolveEntry(ns, es[i]);
      if res.Err? {
        FirstErrorStays(ns, es, i + 1);
        return Some(res.error), byId, order;
      }
      TrackExplicit(byId, order, Explicit(ns, es[..i]).value, res.value);
      if res.value.id !in byId { order := order + [res.value.id]; }
      byId := byId[res.value.id := res.value];
    }
    assert es[..|es|] == es;
    failure := None;
  }

  /** Selector entries: only ids nobody has claimed are added. */
  method SecondPass(ns: Namespace, es: seq<Entry>, known: map<string, Attachment>, before: seq<string>,
      ghost explicit: seq<Attachment>)
    returns (failure: Option<RefError>, byId: map<string, Attachment>, order: seq<string>)
    requires Tracks(known, before, explicit, [])
    ensures if failure.Some? then FromSelectors(ns, es) == Err(failure.value) else FromSelectors(ns, es).Ok?
    ensures failure.None? ==> Tracks(byId, order, explicit, FromSelectors(ns, es).value)
  {
    byId, order := known, before;
    for i := 0 to |es|
      invariant FromSelectors(ns, es[..i]).Ok? && Tracks(byId, order, explicit, FromSelectors(ns, es[..i]).value)
    {
      assert es[..i + 1][..i] == es[..i];
      if es[i].selector.None? { continue; }
      var res := ResolveSelector(ns, es[i].selector.value);
      if res.Err? {
        FirstErrorStays(ns, es, i + 1);
        return Some(res.error), byId, order;
      }
      byId, order := AddSelected(byId, order, es[i], res.value, explicit, FromSelectors(ns, es[..i]).value);
    }
    assert es[..|es|] == es;
    failure := None;
  }

  method EmitInOrder(byId: map<string, Attachment>, order: seq<string>, ghost explicit: seq<Attachment>,
      ghost selected: seq<Attachment>)
    returns (out: seq<Attachment>)
    requires Tracks(byId, order, explicit, selected)
    ensures IsUnion(out, explicit, selected)
  {
    out := [];
    OrderKnown(byId, order, explicit, selected);
    for i := 0 to |order|
      invariant |out| == i && forall j | 0 <= j < i :: order[j] in byId && out[j] == byId[order[j]]
    {
      assert order[i] in order;
      out := out + [byId[order[i]]];
    }
    Emitted(out, byId, order, explicit, selected);
  }

  /** The inner loop of the second pass: ids already claimed are left untouched. */
  method AddSelected(known: map<string, Attachment>, before: seq<string>, e: Entry, ids: seq<string>,
                     ghost explicit: seq<Attachment>, ghost selected: seq<Attachment>)
    returns (byId: map<string, Attachment>, order: seq<string>)
    requires Tracks(known, before, explicit, selected)
    ensures Tracks(byId, order, explicit, selected + Selected(e, ids))
  {
    byId, order := known, before;
    assert selected + Selected(e, ids[..0]) == selected;
    for i := 0 to |ids|
      invariant Tracks(byId, order, explicit, selected + Selected(e, ids[..i]))
    {
      var a := Attachment(ids[i], "", e.dhcp, e.gateway, e.reserved);
      TrackSelected(byId, order, explicit, selected + Selected(e, ids[..i]), a);
      SelectedStep(e, ids, i, selected);
      if ids[i] in byId { continue; }
      byId := byId[ids[i] := a];
      order := order + [ids[i]];
    }
    assert ids[..|ids|] == ids;
  }

  lemma SelectedStep(e: Entry, ids: seq<string>, i: nat, selected: seq<Attachment>)
    requires i < |ids|
    ensures selected + Selected(e, ids[..i + 1]) ==
            selected + Selected(e, ids[..i]) + [Attachment(ids[i], "", e.dhcp, e.gateway, e.reserved)]
  {
    assert Selected(e, ids[..i + 1]) == Selected(e, ids[..i]) + [Attachment(ids[i], "", e.dhcp, e.gateway, e.reserved)];
  }

  lemma OrderKnown(byId: map<string, Attachment>, order: seq<string>, explicit: seq<Attachment>,
      selected: seq<Attachment>)
    requires Tracks(byId, order, explicit, selected)
    ensures forall id | id in order :: id in byId
  {
    DedupeIsSet(Ids(explicit) + Ids(selected));
  }

  lemma LastForId(list: seq<Attachment>, id: string)
    ensures LastFor(list, id).Some? ==> LastFor(list, id).value.id == id && LastFor(list, id).value in list
    ensures FirstFor(list, id).Some? ==> FirstFor(list, id).value.id == id && FirstFor(list, id).value in list
  {
    if |list| > 0 { LastForId(list[..|list| - 1], id); }
  }

  lemma Emitted(out: seq<Attachment>, byId: map<string, Attachment>, order: seq<string>, explicit: seq<Attachment>,
      selected: seq<Attachment>)
    requires Tracks(byId, order, explicit, selected)
    requires |out| == |order| && forall j | 0 <= j < |order| :: order[j] in byId && out[j] == byId[order[j]]
    ensures IsUnion(out, explicit, selected)
  {
    forall j | 0 <= j < |order| ensures out[j].id == order[j] && Winner(explicit, selected, out[j].id) == Some(out[j]) {
      LastForId(explicit, order[j]);
      LastForId(selected, order[j]);
    }
    assert Ids(out) == order;
  }

  /** An error in a prefix is the error of the whole list. */
  lemma {:induction false} FirstErrorStays(ns: Namespace, es: seq<Entry>, i: nat)
    requires i <= |es|
    ensures Explicit(ns, es[..i]).Err? ==>
              Explicit(ns, es).Err? && Explicit(ns, es).error == Explicit(ns, es[..i]).error
    ensures FromSelectors(ns, es[..i]).Err? ==>
              FromSelectors(ns, es).Err? && FromSelectors(ns, es).error == FromSelectors(ns, es[..i]).error
  {
    if i == |es| {
      assert es[..i] == es;
    } else {
      FirstErrorStays(ns, es[..|es| - 1], i);
      assert es[..|es| - 1][..i] == es[..i];
    }
  }

  // ---- what the union contains ---------------------------------------------------------------------------

  /**
   Ids are pairwise distinct and are exactly the mentioned ones; explicit entries win, the last of them; selected ones
   never carry NAT.
   */
  lemma UnionMeaning(r: seq<Attachment>, explicit: seq<Attachment>, selected: seq<Attachment>)
    requires IsUnion(r, explicit, selected) && forall a | a in selected :: a.natIp == ""
    ensures Distinct(Ids(r))
    ensures forall id :: id in Ids(r) <==> id in Ids(explicit) || id in Ids(selected)
    ensures forall a | a in r :: if a.id in Ids(explicit) then LastFor(explicit, a.id) == Some(a)
                                 else FirstFor(selected, a.id) == Some(a) && a.natIp == ""
  {
    DedupeIsSet(Ids(explicit) + Ids(selected));
    forall a | a in r
      ensures if a.id in Ids(explicit) then LastFor(explicit, a.id) == Some(a)
              else FirstFor(selected, a.id) == Some(a) && a.natIp == ""
    {
      if a.id in Ids(explicit) { SomeForPresent(explicit, a.id); } else { NoneForAbsent(explicit, a.id); }
      LastForId(selected, a.id);
    }
  }

  /** An id is selected by an entry when a usable network with the wanted labels carries it. */
  predicate SelectedBy(ns: Namespace, e: Entry, id: string) {
    && e.selector.Some? && e.selector.value.MatchLabels?
    && exists n | n in ns.networks :: Matches(ns.networks[n], e.selector.value.labels) && Usable(ns.networks[n])
                                      && ns.networks[n].upstreamId.value == id
  }

  predicate MatchNamed(ns: Namespace, n: string, labels: map<string, string>, id: string) {
    n in ns.networks && Matches(ns.networks[n], labels) && Usable(ns.networks[n])
        && ns.networks[n].upstreamId.value == id
  }

  predicate AnyNamed(ns: Namespace, names: seq<string>, labels: map<string, string>, id: string) {
    exists n | n in names :: MatchNamed(ns, n, labels, id)
  }

  lemma AnyNamedStep(ns: Namespace, names: seq<string>, labels: map<string, string>, id: string)
    requires |names| > 0
    ensures AnyNamed(ns, names, labels, id) <==>
            MatchNamed(ns, names[0], labels, id) || AnyNamed(ns, names[1..], labels, id)
  {
    assert names[0] in names;
    assert forall n :: n in names <==> n == names[0] || n in names[1..];
  }

  lemma {:induction false} MatchIdsAre(ns: Namespace, names: seq<string>, labels: map<string, string>, id: string)
    ensures id in MatchIds(ns, names, labels) <==> AnyNamed(ns, names, labels, id)
  {
    if |names| > 0 {
      MatchIdsAre(ns, names[1..], labels, id);
      AnyNamedStep(ns, names, labels, id);
      assert id in MatchIds(ns, names, labels) <==>
             MatchNamed(ns, names[0], labels, id) || id in MatchIds(ns, names[1..], labels);
    }
  }

  lemma SelectorFinds(ns: Namespace, e: Entry, id: string)
    requires Listed(ns) && e.selector.Some? && ResolveSelector(ns, e.selector.value).Ok?
    ensures id in ResolveSelector(ns, e.selector.value).value <==> SelectedBy(ns, e, id)
  {
    var found := MatchIds(ns, ns.listing, e.selector.value.labels);
    SortSorts(found);
    assert id in Sort(found) <==> id in multiset(Sort(found)) <==> id in multiset(found) <==> id in found;
    MatchIdsAre(ns, ns.listing, e.selector.value.labels, id);
  }

  lemma {:induction false} SelectorsFind(ns: Namespace, es: seq<Entry>, id: string)
    requires Listed(ns) && FromSelectors(ns, es).Ok?
    ensures id in Ids(FromSelectors(ns, es).value) <==> exists e | e in es :: SelectedBy(ns, e, id)
    ensures forall a | a in FromSelectors(ns, es).value :: a.natIp == ""
  {
    var k := |es| - 1;
    if k >= 0 {
      SelectorsFind(ns, es[..k], id);
      assert es == es[..k] + [es[k]];
      var before := FromSelectors(ns, es[..k]).value;
      if es[k].selector.Some? {
        var ids := ResolveSelector(ns, es[k].selector.value).value;
        SelectorFinds(ns, es[k], id);
        assert Ids(before + Selected(es[k], ids)) == Ids(before) + ids;
      }
    }
  }

  /** The attached networks are the explicit ids together with every usable match of some selector, each once. */
  lemma AttachedExactly(ns: Namespace, es: seq<Entry>, r: seq<Attachment>, id: string)
    requires Listed(ns) && Explicit(ns, es).Ok? && FromSelectors(ns, es).Ok?
    requires IsUnion(r, Explicit(ns, es).value, FromSelectors(ns, es).value)
    ensures Distinct(Ids(r))
    ensures id in Ids(r) <==> id in Ids(Explicit(ns, es).value) || exists e | e in es :: SelectedBy(ns, e, id)
    ensures forall a | a in r && a.natIp != "" :: a in Explicit(ns, es).value
  {
    var ex, sel := Explicit(ns, es).value, FromSelectors(ns, es).value;
    SelectorsFind(ns, es, id);
    UnionMeaning(r, ex, sel);
    forall a | a in r && a.natIp != "" ensures a in ex {
      LastForId(ex, a.id);
    }
  }

  // ---- the list order never shows ---------------------------------------------------------------------------

  lemma {:induction false} MatchConcat(ns: Namespace, a: seq<string>, b: seq<string>, labels: map<string, string>)
    ensures MatchIds(ns, a + b, labels) == MatchIds(ns, a, labels) + MatchIds(ns, b, labels)
  {
    if |a| == 0 {
      assert a + b == b;
    } else {
      assert (a + b)[1..] == a[1..] + b;
      MatchConcat(ns, a[1..], b, labels);
    }
  }

  lemma {:induction false} MatchPermutes(ns: Namespace, a: seq<string>, b: seq<string>, labels: map<string, string>)
    requires multiset(a) == multiset(b)
    ensures multiset(MatchIds(ns, a, labels)) == multiset(MatchIds(ns, b, labels))
  {
    assert |a| == |multiset(a)| == |b|;
    if |a| > 0 {
      assert a[0] in multiset(b);
      var k :| 0 <= k < |b| && b[k] == a[0];
      SameRest(a, b, k);
      MatchPermutes(ns, a[1..], b[..k] + b[k + 1..], labels);
      MatchExtract(ns, b, k, labels);
      MatchExtract(ns, a, 0, labels);
      assert a[..0] + a[1..] == a[1..];
    }
  }

  lemma MatchExtract(ns: Namespace, b: seq<string>, k: nat, labels: map<string, string>)
    requires k < |b|
    ensures multiset(MatchIds(ns, b, labels)) ==
            multiset(MatchIds(ns, [b[k]], labels)) + multiset(MatchIds(ns, b[..k] + b[k + 1..], labels))
  {
    var left, right := b[..k], b[k + 1..];
    assert b == left + ([b[k]] + right);
    MatchConcat(ns, left, right, labels);
    MatchConcat(ns, left, [b[k]] + right, labels);
    MatchConcat(ns, [b[k]], right, labels);
  }

  lemma {:induction false} MatchSameObjects(a: Namespace, b: Namespace, names: seq<string>, labels: map<string, string>)
    requires a.networks == b.networks
    ensures MatchIds(a, names, labels) == MatchIds(b, names, labels)
  {
    if |names| > 0 { MatchSameObjects(a, b, names[1..], labels); }
  }

  /** Whatever order the networks are listed in, everything resolves the same. */
  lemma {:induction false} ListOrderIrrelevant(a: Namespace, b: Namespace, es: seq<Entry>)
    requires multiset(a.listing) == multiset(b.listing) && b == a.(listing := b.listing)
    ensures Explicit(a, es) == Explicit(b, es) && FromSelectors(a, es) == FromSelectors(b, es)
  {
    var k := |es| - 1;
    if k >= 0 {
      ListOrderIrrelevant(a, b, es[..k]);
      SameEntry(a, b, es[k]);
      if es[k].selector.Some? && es[k].selector.value.MatchLabels? {
        var labels := es[k].selector.value.labels;
        MatchSameObjects(a, b, a.listing, labels);
        MatchPermutes(b, a.listing, b.listing, labels);
        SortEqualIff(MatchIds(a, a.listing, labels), MatchIds(b, b.listing, labels));
      }
    }
  }

  lemma SameEntry(a: Namespace, b: Namespace, e: Entry)
    requires b == a.(listing := b.listing)
    ensures ResolveEntry(a, e) == ResolveEntry(b, e)
  {
  }

  /** A union is determined by the two lists, so the resolved attachments never depend on the list order. */
  lemma UnionUnique(r: seq<Attachment>, t: seq<Attachment>, explicit: seq<Attachment>, selected: seq<Attachment>)
    requires IsUnion(r, explicit, selected) && IsUnion(t, explicit, selected)
    ensures r == t
  {
    assert |r| == |Ids(r)| == |Ids(t)| == |t|;
    forall i | 0 <= i < |r| ensures r[i] == t[i] {
      assert Ids(r)[i] == r[i].id && Ids(t)[i] == t[i].id;
      assert r[i] in r && t[i] in t;
      assert Winner(explicit, selected, r[i].id) == Some(r[i]);
      assert Winner(explicit, selected, t[i].id) == Some(t[i]);
    }
  }
}
