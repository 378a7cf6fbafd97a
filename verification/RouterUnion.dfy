/** What a router's entries ask for, entry by entry. */
module RouterUnion {
  import opened Wrappers
  import opened Text
  import opened RouterRefs

  // ---- one entry -------------------------------------------------------------------------

  /** The entry names this network: its literal id, else that of a readable network that is ready and has one. */
  predicate GivesId(ns: Namespace, e: Entry, id: string) {
    && id != "" && e.selector.None?
    && if e.networkId.Some? && e.networkId.value != "" then e.networkId.value == id
       else
         && e.networkRef.Some? && e.networkRef.value !in ns.unreadable && e.networkRef.value in ns.networks
         && var o := ns.networks[e.networkRef.value];
         o.ready && o.upstreamId == Some(id)
  }

  /** The entry's NAT address, "" when it asks for none. */
  predicate GivesNat(ns: Namespace, e: Entry, ip: string) {
    match e.natFloatingIp
    case None => ip == ""
    case Some(asked) =>
      && ip != ""
      && if asked.ip.Some? && asked.ip.value != "" then asked.ip.value == ip
         else
           && asked.ref.Some? && asked.ref.value !in ns.unreadable && asked.ref.value in ns.addresses
           && var o := ns.addresses[asked.ref.value];
           o.ready && o.ip == Some(ip)
  }

  predicate SameSettings(e: Entry, a: Attachment) {
    a.dhcp == e.dhcp && a.gateway == e.gateway && a.reserved == e.reserved
  }

  predicate AsDeclared(ns: Namespace, e: Entry, a: Attachment) {
    GivesId(ns, e, a.id) && GivesNat(ns, e, a.natIp) && SameSettings(e, a)
  }

  /** Why the network is refused. */
  predicate IdRefused(ns: Namespace, e: Entry, why: RefError) {
    && (e.networkId.Some? ==> e.networkId.value == "")
    && match e.networkRef
       case None => why == EmptyEntry
       case Some(n) =>
         if n in ns.unreadable then why == ReadFailed
         else if n !in ns.networks then why == NotFound
         else
           && why == NotReady
           && (ns.networks[n].ready ==> ns.networks[n].upstreamId == None || ns.networks[n].upstreamId == Some(""))
  }

  /** Why the NAT address is refused. */
  predicate NatRefused(ns: Namespace, e: Entry, why: RefError) {
    match e.natFloatingIp
    case None => false
    case Some(asked) =>
      && (asked.ip.Some? ==> asked.ip.value == "")
      && match asked.ref
         case None => why == EmptyNat
         case Some(n) =>
           if n in ns.unreadable then why == ReadFailed
           else if n !in ns.addresses then why == NotFound
           else
             && why == NotReady
             && (ns.addresses[n].ready ==> ns.addresses[n].ip == None || ns.addresses[n].ip == Some(""))
  }

  /** The network is looked at first. */
  predicate EntryRefused(ns: Namespace, e: Entry, why: RefError) {
    IdRefused(ns, e, why) || (NatRefused(ns, e, why) && !exists w :: IdRefused(ns, e, w))
  }

  lemma NetworkIs(ns: Namespace, e: Entry)
    requires e.selector.None?
    ensures forall id :: NetworkIdOf(ns, e) == Ok(id) <==> GivesId(ns, e, id)
    ensures forall why :: NetworkIdOf(ns, e) == Err(why) <==> IdRefused(ns, e, why)
  {
  }

  lemma NatIs(ns: Namespace, e: Entry)
    ensures forall ip :: NatOf(ns, e) == Ok(ip) <==> GivesNat(ns, e, ip)
    ensures forall why :: NatOf(ns, e) == Err(why) <==> NatRefused(ns, e, why)
  {
  }

  /** An explicit entry resolves to what it asks for, or is refused for its reason. */
  lemma EntryIs(ns: Namespace, e: Entry)
    requires e.selector.None?
    ensures forall a :: ResolveEntry(ns, e) == Ok(a) <==> AsDeclared(ns, e, a)
    ensures forall why :: ResolveEntry(ns, e) == Err(why) <==> EntryRefused(ns, e, why)
    ensures ResolveEntry(ns, e).Ok? ==> forall id :: GivesId(ns, e, id) <==> id == ResolveEntry(ns, e).value.id
  {
    hide NetworkIdOf, NatOf, GivesId, GivesNat, IdRefused, NatRefused;
    NetworkIs(ns, e);
    NatIs(ns, e);
    var network, address := NetworkIdOf(ns, e), NatOf(ns, e);
    if network.Err? {
      assert IdRefused(ns, e, network.error);
      forall id ensures !GivesId(ns, e, id) { assert NetworkIdOf(ns, e) != Ok(id); }
    } else {
      assert GivesId(ns, e, network.value);
      forall w ensures !IdRefused(ns, e, w) { assert NetworkIdOf(ns, e) != Err(w); }
    }
    if address.Ok? { assert GivesNat(ns, e, address.value); } else { assert NatRefused(ns, e, address.error); }
  }

  // ---- the explicit entries --------------------------------------------------------------------

  /** The last explicit entry for the network. */
  ghost predicate LastDeclaring(ns: Namespace, es: seq<Entry>, id: string, i: int) {
    0 <= i < |es| && GivesId(ns, es[i], id) && forall j | i < j < |es| :: !GivesId(ns, es[j], id)
  }

  lemma ExplicitStep(ns: Namespace, es: seq<Entry>, k: nat)
    requires |es| == k + 1 && Explicit(ns, es).Ok?
    ensures Explicit(ns, es[..k]).Ok?
    ensures es[k].selector.Some? ==> Explicit(ns, es).value == Explicit(ns, es[..k]).value
    ensures es[k].selector.None? ==>
              ResolveEntry(ns, es[k]).Ok?
              && Explicit(ns, es).value == Explicit(ns, es[..k]).value + [ResolveEntry(ns, es[k]).value]
  {
  }

  lemma LastStep(ns: Namespace, es: seq<Entry>, k: nat, id: string)
    requires |es| == k + 1
    ensures forall i :: LastDeclaring(ns, es, id, i) <==>
              if GivesId(ns, es[k], id) then i == k else LastDeclaring(ns, es[..k], id, i)
    ensures (exists i | 0 <= i < |es| :: GivesId(ns, es[i], id)) <==>
              GivesId(ns, es[k], id) || exists i | 0 <= i < k :: GivesId(ns, es[..k][i], id)
  {
    hide GivesId;
    assert forall i | 0 <= i < k :: es[..k][i] == es[i];
  }

  lemma {:induction false} LastExplicit(ns: Namespace, es: seq<Entry>, id: string)
    requires Explicit(ns, es).Ok?
    ensures forall i | LastDeclaring(ns, es, id, i) ::
              var a := LastFor(Explicit(ns, es).value, id); a.Some? && AsDeclared(ns, es[i], a.value)
    ensures LastFor(Explicit(ns, es).value, id).None? <==> forall i | 0 <= i < |es| :: !GivesId(ns, es[i], id)
    ensures LastFor(Explicit(ns, es).value, id).Some? ==> exists i :: LastDeclaring(ns, es, id, i)
  {
    hide ResolveEntry, GivesId, AsDeclared, LastDeclaring, Explicit, LastFor;
    var k := |es| - 1;
    if k < 0 {
      NothingExplicit(ns, es, id);
    } else {
      LastExplicit(ns, es[..k], id) by { ExplicitStep(ns, es, k); }
      ExplicitStep(ns, es, k);
      LastStep(ns, es, k, id);
      InRange(ns, es[..k], id);
      if es[k].selector.Some? {
        NoneGiven(ns, es[k]);
      } else {
        EntryIs(ns, es[k]);
        var a := ResolveEntry(ns, es[k]).value;
        LastForSnoc(Explicit(ns, es[..k]).value, a, id);
        if a.id == id {
          assert LastDeclaring(ns, es, id, k);
        } else if LastFor(Explicit(ns, es[..k]).value, id).Some? {
          var i :| LastDeclaring(ns, es[..k], id, i);
          assert LastDeclaring(ns, es, id, i);
        }
      }
    }
  }

  lemma InRange(ns: Namespace, es: seq<Entry>, id: string)
    ensures forall i | LastDeclaring(ns, es, id, i) :: 0 <= i < |es|
  {
  }

  lemma NothingExplicit(ns: Namespace, es: seq<Entry>, id: string)
    requires es == []
    ensures Explicit(ns, es) == Ok([]) && LastFor([], id).None? && forall i :: !LastDeclaring(ns, es, id, i)
  {
  }

  lemma NoneGiven(ns: Namespace, e: Entry)
    requires e.selector.Some?
    ensures forall id :: !GivesId(ns, e, id)
  {
  }

  // ---- the selectors ------------------------------------------------------------------------------

  /** A network of the namespace with all the selector's labels is ready and has this id. */
  ghost predicate Selects(ns: Namespace, e: Entry, id: string) {
    && id != "" && e.selector.Some? && e.selector.value.MatchLabels?
    && exists n | n in ns.networks ::
         && ns.networks[n].ready && ns.networks[n].upstreamId == Some(id)
         && forall k | k in e.selector.value.labels ::
              k in ns.networks[n].labels && ns.networks[n].labels[k] == e.selector.value.labels[k]
  }

  lemma SelectsIs(ns: Namespace, e: Entry, id: string)
    ensures SelectedBy(ns, e, id) <==> Selects(ns, e, id)
  {
    if SelectedBy(ns, e, id) {
      var n :| n in ns.networks && Matches(ns.networks[n], e.selector.value.labels) && Usable(ns.networks[n])
        && ns.networks[n].upstreamId.value == id;
    }
    if Selects(ns, e, id) {
      var n :| n in ns.networks && ns.networks[n].ready && ns.networks[n].upstreamId == Some(id)
        && forall k | k in e.selector.value.labels ::
             k in ns.networks[n].labels && ns.networks[n].labels[k] == e.selector.value.labels[k];
      assert Matches(ns.networks[n], e.selector.value.labels) && Usable(ns.networks[n]);
    }
  }

  /** The first entry whose selector takes the network. */
  ghost predicate FirstSelecting(ns: Namespace, es: seq<Entry>, id: string, i: int) {
    0 <= i < |es| && Selects(ns, es[i], id) && forall j | 0 <= j < i :: !Selects(ns, es[j], id)
  }

  /** A selected attachment has its entry's settings and never NAT. */
  predicate AsSelected(e: Entry, a: Attachment) {
    a.natIp == "" && SameSettings(e, a)
  }

  lemma {:induction false} FirstForConcat(xs: seq<Attachment>, ys: seq<Attachment>, id: string)
    ensures FirstFor(xs + ys, id) == if FirstFor(xs, id).Some? then FirstFor(xs, id) else FirstFor(ys, id)
  {
    if |ys| == 0 {
      assert xs + ys == xs;
    } else {
      var k := |ys| - 1;
      assert (xs + ys)[..|xs + ys| - 1] == xs + ys[..k];
      FirstForConcat(xs, ys[..k], id);
    }
  }

  lemma {:induction false} FirstInSelected(e: Entry, ids: seq<string>, id: string)
    ensures FirstFor(Selected(e, ids), id).Some? <==> id in ids
    ensures id in ids ==> AsSelected(e, FirstFor(Selected(e, ids), id).value)
  {
    if |ids| > 0 {
      var k := |ids| - 1;
      assert ids == ids[..k] + [ids[k]];
      assert Selected(e, ids)[..k] == Selected(e, ids[..k]);
      FirstInSelected(e, ids[..k], id);
    }
  }

  lemma {:induction false} FirstSelected(ns: Namespace, es: seq<Entry>, id: string)
    requires Listed(ns) && FromSelectors(ns, es).Ok?
    ensures forall i | FirstSelecting(ns, es, id, i) ::
              var a := FirstFor(FromSelectors(ns, es).value, id); a.Some? && AsSelected(es[i], a.value)
    ensures FirstFor(FromSelectors(ns, es).value, id).None? <==> forall i | 0 <= i < |es| :: !Selects(ns, es[i], id)
    ensures FirstFor(FromSelectors(ns, es).value, id).Some? ==> exists i :: FirstSelecting(ns, es, id, i)
  {
    hide ResolveSelector, Selects, AsSelected, Listed;
    var k := |es| - 1;
    if k >= 0 {
      var before := es[..k];
      FirstSelected(ns, before, id);
      assert forall i | 0 <= i < k :: before[i] == es[i];
      if es[k].selector.None? {
        NoneSelected(ns, es[k], id);
        assert forall i :: FirstSelecting(ns, es, id, i) <==> FirstSelecting(ns, before, id, i);
      } else {
        var ids := ResolveSelector(ns, es[k].selector.value).value;
        var list := FromSelectors(ns, before).value;
        SelectorFinds(ns, es[k], id);
        SelectsIs(ns, es[k], id);
        FirstForConcat(list, Selected(es[k], ids), id);
        FirstInSelected(es[k], ids, id);
        if FirstFor(list, id).Some? {
          var i :| FirstSelecting(ns, before, id, i);
          assert FirstSelecting(ns, es, id, i);
          assert forall j :: FirstSelecting(ns, es, id, j) ==> j == i;
        } else if id in ids {
          assert FirstSelecting(ns, es, id, k);
          assert forall j :: FirstSelecting(ns, es, id, j) ==> j == k;
        }
      }
    }
  }

  lemma NoneSelected(ns: Namespace, e: Entry, id: string)
    requires e.selector.None?
    ensures !Selects(ns, e, id)
  {
  }

  // ---- the union -----------------------------------------------------------------------------------

  /** The attachment the entries ask for: by the last explicit one for its network, else the first selector. */
  ghost predicate AskedFor(ns: Namespace, es: seq<Entry>, a: Attachment) {
    || (exists i :: LastDeclaring(ns, es, a.id, i) && AsDeclared(ns, es[i], a))
    || ((forall i | 0 <= i < |es| :: !GivesId(ns, es[i], a.id))
        && exists i :: FirstSelecting(ns, es, a.id, i) && AsSelected(es[i], a))
  }

  /** The union holds each attachment the entries ask for, once per network, and no other. */
  lemma UnionIs(ns: Namespace, es: seq<Entry>, r: seq<Attachment>)
    requires Listed(ns) && Explicit(ns, es).Ok? && FromSelectors(ns, es).Ok?
    requires IsUnion(r, Explicit(ns, es).value, FromSelectors(ns, es).value)
    ensures Distinct(Ids(r)) && forall a :: a in r <==> AskedFor(ns, es, a)
  {
    hide Explicit, FromSelectors, AskedFor, Listed;
    var ex, sel := Explicit(ns, es).value, FromSelectors(ns, es).value;
    DedupeIsSet(Ids(ex) + Ids(sel));
    forall a ensures a in r <==> AskedFor(ns, es, a) {
      WinnerAsked(ns, es, a);
      if a in r {
        assert Winner(ex, sel, a.id) == Some(a);
      } else if AskedFor(ns, es, a) {
        WinnerMentioned(ex, sel, a.id);
      }
    }
  }

  lemma WinnerMentioned(ex: seq<Attachment>, sel: seq<Attachment>, id: string)
    requires Winner(ex, sel, id).Some?
    ensures id in Ids(ex) + Ids(sel)
  {
    LastForId(ex, id);
    LastForId(sel, id);
    if id !in Ids(ex) { NoneForAbsent(ex, id); }
    if id !in Ids(sel) { NoneForAbsent(sel, id); }
  }

  lemma WinnerAsked(ns: Namespace, es: seq<Entry>, a: Attachment)
    requires Listed(ns) && Explicit(ns, es).Ok? && FromSelectors(ns, es).Ok?
    ensures Winner(Explicit(ns, es).value, FromSelectors(ns, es).value, a.id) == Some(a) <==> AskedFor(ns, es, a)
  {
    hide Explicit, FromSelectors, LastFor, FirstFor, GivesId, GivesNat, Selects, Listed;
    var ex, sel := Explicit(ns, es).value, FromSelectors(ns, es).value;
    LastExplicit(ns, es, a.id);
    FirstSelected(ns, es, a.id);
    LastForId(ex, a.id);
    LastForId(sel, a.id);
    if LastFor(ex, a.id).Some? {
      var i :| LastDeclaring(ns, es, a.id, i);
      assert forall j :: LastDeclaring(ns, es, a.id, j) ==> j == i;
      OneAttachment(ns, es[i]);
    } else {
      assert forall i :: !LastDeclaring(ns, es, a.id, i);
      if FirstFor(sel, a.id).Some? {
        var i :| FirstSelecting(ns, es, a.id, i);
        assert forall j :: FirstSelecting(ns, es, a.id, j) ==> j == i;
      }
    }
  }

  /** An entry asks for one attachment at most. */
  lemma OneAttachment(ns: Namespace, e: Entry)
    ensures forall a, b | AsDeclared(ns, e, a) && AsDeclared(ns, e, b) :: a == b
  {
  }

  // ---- errors ------------------------------------------------------------------------------------------

  /** The first explicit entry that is refused decides the error. */
  lemma {:induction false} ExplicitFails(ns: Namespace, es: seq<Entry>)
    ensures forall why :: Explicit(ns, es) == Err(why) <==>
              exists k | 0 <= k < |es| :: && es[k].selector.None? && EntryRefused(ns, es[k], why)
                    && forall j | 0 <= j < k && es[j].selector.None? :: exists a :: AsDeclared(ns, es[j], a)
    ensures Explicit(ns, es).Ok? <==>
              forall j | 0 <= j < |es| && es[j].selector.None? :: exists a :: AsDeclared(ns, es[j], a)
  {
    hide ResolveEntry, AsDeclared, EntryRefused;
    var n := |es| - 1;
    if n >= 0 {
      var before := es[..n];
      ExplicitFails(ns, before);
      assert forall i | 0 <= i < n :: before[i] == es[i];
      if es[n].selector.None? {
        EntryIs(ns, es[n]);
        var r := ResolveEntry(ns, es[n]);
        if r.Ok? { assert AsDeclared(ns, es[n], r.value); } else { assert EntryRefused(ns, es[n], r.error); }
      }
    }
  }

  /** A selector fails when it does not convert, else when the networks cannot be listed. */
  predicate SelectorRefused(ns: Namespace, s: Selector, why: RefError) {
    if s.Malformed? then why == BadSelector else !ns.listable && why == ListFailed
  }

  /** The first failing selector decides the error. */
  lemma {:induction false} SelectorsFail(ns: Namespace, es: seq<Entry>)
    ensures forall why :: FromSelectors(ns, es) == Err(why) <==>
              exists k | 0 <= k < |es| :: && es[k].selector.Some? && SelectorRefused(ns, es[k].selector.value, why)
                    && forall j | 0 <= j < k && es[j].selector.Some? ::
                         es[j].selector.value.MatchLabels? && ns.listable
    ensures FromSelectors(ns, es).Ok? <==>
              forall j | 0 <= j < |es| && es[j].selector.Some? :: es[j].selector.value.MatchLabels? && ns.listable
  {
    hide MatchIds, Selected;
    var n := |es| - 1;
    if n >= 0 {
      var before := es[..n];
      SelectorsFail(ns, before);
      assert forall i | 0 <= i < n :: before[i] == es[i];
      if es[n].selector.Some? && ResolveSelector(ns, es[n].selector.value).Err? {
        assert SelectorRefused(ns, es[n].selector.value, ResolveSelector(ns, es[n].selector.value).error);
      }
    }
  }
}
