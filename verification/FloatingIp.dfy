/**
 Binding a server's declared floating IPs and releasing the ones it no longer declares, one call at a time, as far as
 the calls succeed.
 */
module FloatingIp {
  import opened Wrappers
  import opened Text
  import Float32

  /** Every existing address and the server that holds it. */
  type Addresses = map<string, Option<nat>>

  datatype Call = Bind(ip: string) | Unbind(ip: string)

  /** How the upstream treats a call on an address. */
  datatype Fate = Works | Fails | LostReply

  /**
   Where a sequence of calls has got to: the addresses, the calls made, the ones this controller holds, no error yet.
   */
  datatype Progress = Progress(up: Addresses, calls: seq<Call>, ours: set<string>, ok: bool)

  function FateOf(fates: map<string, Fate>, ip: string): Fate {
    if ip in fates then fates[ip] else Works
  }

  // ---- lists as sets ---------------------------------------------------------------------

  method DedupeStrings(s: seq<string>) returns (out: seq<string>)
    ensures out == Dedupe(s)
  {
    var seen: set<string> := {};
    out := [];
    for i := 0 to |s|
      invariant seen == SetOf(s[..i]) && out == Dedupe(s[..i])
    {
      assert s[..i + 1] == s[..i] + [s[i]] && s[..i + 1][..i] == s[..i];
      if s[i] in seen { continue; }
      seen := seen + {s[i]};
      out := out + [s[i]];
    }
    assert s[..|s|] == s;
  }

  method StringSetsEqual(a: seq<string>, b: seq<string>) returns (equal: bool)
    ensures equal <==> forall x :: x in a <==> x in b
  {
    var sa, sb := SetOf(a), SetOf(b);
    SameMembersSameSet(a, b);
    if |sa| != |sb| { return false; }
    var rest := sa;
    while rest != {}
      invariant rest <= sa && sa - rest <= sb
      decreases |rest|
    {
      var k :| k in rest;
      if k !in sb { return false; }
      rest := rest - {k};
    }
    SubsetSize(sa, sb);
    return true;
  }

  lemma SameMembersSameSet(a: seq<string>, b: seq<string>)
    ensures (forall x :: x in a <==> x in b) <==> SetOf(a) == SetOf(b)
  {
    assert forall x :: x in a <==> x in SetOf(a);
    assert forall x :: x in b <==> x in SetOf(b);
  }

  // ---- reading ------------------------------------------------------------------------------

  /** The read-back id passes through single precision before it is compared. */
  predicate Holds(up: Addresses, ip: string, server: nat) {
    ip in up && up[ip].Some? && Float32.Round(up[ip].value) == server
  }

  function Held(up: Addresses, ips: seq<string>, server: nat): seq<string> {
    if |ips| == 0 then []
    else (if Holds(up, ips[0], server) then [ips[0]] else []) + Held(up, ips[1..], server)
  }

  /** The candidates upstream says this server holds. */
  function Bound(up: Addresses, candidates: seq<string>, server: nat): seq<string> {
    Held(up, Dedupe(candidates), server)
  }

  lemma {:induction false} HeldIs(up: Addresses, ips: seq<string>, server: nat)
    ensures forall x :: x in Held(up, ips, server) <==> x in ips && Holds(up, x, server)
  {
    if |ips| > 0 { HeldIs(up, ips[1..], server); }
  }

  lemma BoundIs(up: Addresses, candidates: seq<string>, server: nat)
    ensures forall x :: x in Bound(up, candidates, server) <==> x in candidates && Holds(up, x, server)
  {
    DedupeIsSet(candidates);
    HeldIs(up, Dedupe(candidates), server);
  }

  lemma {:induction false} HeldConcat(up: Addresses, a: seq<string>, b: seq<string>, server: nat)
    ensures Held(up, a + b, server) == Held(up, a, server) + Held(up, b, server)
  {
    if |a| == 0 {
      assert a + b == b;
    } else {
      assert (a + b)[1..] == a[1..] + b;
      HeldConcat(up, a[1..], b, server);
    }
  }

  // ---- writing ---------------------------------------------------------------------------------

  /** The ids not to be skipped. */
  function Todo(ids: seq<string>, skip: set<string>): seq<string> {
    if |ids| == 0 then [] else (if ids[0] in skip then [] else [ids[0]]) + Todo(ids[1..], skip)
  }

  lemma TodoStep(ids: seq<string>, i: nat, skip: set<string>)
    requires i < |ids|
    ensures ids[i] in skip ==> Todo(ids[i..], skip) == Todo(ids[i + 1..], skip)
    ensures ids[i] !in skip ==> |Todo(ids[i..], skip)| > 0 && Todo(ids[i..], skip)[0] == ids[i]
                                && Todo(ids[i..], skip)[1..] == Todo(ids[i + 1..], skip)
  {
    assert ids[i..][1..] == ids[i + 1..];
  }

  /** A missing address counts as released. */
  function UnbindOne(p: Progress, ip: string, fates: map<string, Fate>): Progress {
    var f := FateOf(fates, ip);
    var gone := !f.Fails?;
    Progress(if gone && ip in p.up then p.up[ip := None] else p.up, p.calls + [Unbind(ip)],
             if gone then p.ours - {ip} else p.ours, f.Works?)
  }

  /** The id goes out as the shortest decimal of its single-precision value; a missing address is an error. */
  function BindOne(p: Progress, ip: string, server: nat, fates: map<string, Fate>): Progress {
    var f := FateOf(fates, ip);
    var done := ip in p.up && !f.Fails?;
    Progress(if done then p.up[ip := Some(Float32.Sent(server))] else p.up, p.calls + [Bind(ip)],
             if done then p.ours + {ip} else p.ours, done && f.Works?)
  }

  function UnbindEach(p: Progress, ids: seq<string>, fates: map<string, Fate>): Progress
    decreases ids
  {
    if !p.ok || |ids| == 0 then p else UnbindEach(UnbindOne(p, ids[0], fates), ids[1..], fates)
  }

  function BindEach(p: Progress, ids: seq<string>, server: nat, fates: map<string, Fate>): Progress
    decreases ids
  {
    if !p.ok || |ids| == 0 then p else BindEach(BindOne(p, ids[0], server, fates), ids[1..], server, fates)
  }

  function Surplus(desired: seq<string>, bound: seq<string>): seq<string> {
    Todo(Dedupe(bound), SetOf(desired))
  }

  function Shortage(desired: seq<string>, bound: seq<string>): seq<string> {
    Todo(Dedupe(desired), SetOf(bound))
  }

  /** Releases first, then binds; a server that is off only releases. */
  function Reconciled(p: Progress, server: nat, desired: seq<string>, bound: seq<string>, on: bool,
                      fates: map<string, Fate>): Progress {
    var released := UnbindEach(p, Surplus(desired, bound), fates);
    if on then BindEach(released, Shortage(desired, bound), server, fates) else released
  }

  /** The persisted list, the addresses, and which of them this controller's own calls bound. */
  datatype State = State(up: Addresses, recorded: seq<string>, ours: set<string>)

  /** Observe compares with the id the server itself reports, which has passed through single precision. */
  function ObserveStep(s: State, server: nat, desired: seq<string>, readable: bool): State {
    if readable then s.(recorded := Bound(s.up, desired + s.recorded, Float32.Round(server))) else s
  }

  /** Update compares with, and sends, the integer of the external name. */
  function Updating(s: State, server: nat, desired: seq<string>, on: bool, readable: bool,
      fates: map<string, Fate>): Progress {
    var start := Progress(s.up, [], s.ours, true);
    if !readable then start.(ok := false)
    else Reconciled(start, server, desired, Bound(s.up, desired + s.recorded, server), on, fates)
  }

  function UpdateStep(s: State, server: nat, desired: seq<string>, on: bool, readable: bool,
      fates: map<string, Fate>): State {
    var p := Updating(s, server, desired, on, readable, fates);
    s.(up := p.up, ours := p.ours)
  }

  function Deleting(s: State, fates: map<string, Fate>): Progress {
    UnbindEach(Progress(s.up, [], s.ours, true), s.recorded, fates)
  }

  class BindingController {
    /** The external name's integer. */
    const server: nat
    var up: Addresses
    var recorded: seq<string>
    ghost var ours: set<string>

    ghost function View(): State
      reads this
    {
      State(up, recorded, ours)
    }

    constructor (id: nat, addresses: Addresses)
      ensures server == id && View() == State(addresses, [], {})
    {
      server, up, recorded, ours := id, addresses, [], {};
    }

    method ObserveBound(candidates: seq<string>, id: nat) returns (bound: seq<string>)
      ensures bound == Bound(up, candidates, id)
    {
      var ids := DedupeStrings(candidates);
      bound := [];
      for i := 0 to |ids|
        invariant bound == Held(up, ids[..i], id)
      {
        HeldConcat(up, ids[..i], [ids[i]], id);
        assert ids[..i + 1] == ids[..i] + [ids[i]];
        if ids[i] in up && up[ids[i]].Some? && Float32.Round(up[ids[i]].value) == id {
          bound := bound + [ids[i]];
        }
      }
      assert ids[..|ids|] == ids;
    }

    /** Overwrites the recorded list with what is confirmed; up to date when that is the desired set. */
    method Observe(desired: seq<string>, readable: bool) returns (upToDate: bool)
      modifies `recorded
      ensures View() == ObserveStep(old(View()), server, desired, readable)
      ensures readable ==> (upToDate <==> forall x :: x in recorded <==> x in desired)
    {
      if !readable { return false; }
      var reported := Float32.Round(server);
      recorded := ObserveBound(desired + recorded, reported);
      upToDate := StringSetsEqual(recorded, desired);
    }

    method UnbindIp(ip: string, fates: map<string, Fate>) returns (ok: bool)
      modifies `up, `ours
      ensures forall calls ::
                Progress(up, calls + [Unbind(ip)], ours, ok) ==
                UnbindOne(Progress(old(up), calls, old(ours), true), ip, fates)
    {
      var f := if ip in fates then fates[ip] else Works;
      if f != Fails {
        if ip in up { up := up[ip := None]; }
        ours := ours - {ip};
      }
      ok := f == Works;
    }

    method BindIp(ip: string, fates: map<string, Fate>) returns (ok: bool)
      modifies `up, `ours
      ensures forall calls ::
                Progress(up, calls + [Bind(ip)], ours, ok) ==
                BindOne(Progress(old(up), calls, old(ours), true), ip, server, fates)
    {
      var f := if ip in fates then fates[ip] else Works;
      if ip !in up { return false; }
      if f != Fails {
        up := up[ip := Some(Float32.Sent(server))];
        ours := ours + {ip};
      }
      ok := f == Works;
    }

    method ReconcileBindings(desired: seq<string>, bound: seq<string>, on: bool, fates: map<string, Fate>)
      returns (calls: seq<Call>, ok: bool)
      modifies `up, `ours
      ensures Progress(up, calls, ours, ok) == Reconciled(Progress(old(up), [], old(ours), true), server, desired,
          bound, on, fates)
    {
      var desiredSet, boundSet := SetOf(desired), SetOf(bound);
      ghost var start := Progress(up, [], ours, true);
      calls, ok := [], true;
      var held := DedupeStrings(bound);
      for i := 0 to |held|
        invariant ok && UnbindEach(start, Todo(held, desiredSet), fates) ==
                        UnbindEach(Progress(up, calls, ours, ok), Todo(held[i..], desiredSet), fates)
      {
        TodoStep(held, i, desiredSet);
        if held[i] in desiredSet { continue; }
        ok := UnbindIp(held[i], fates);
        calls := calls + [Unbind(held[i])];
        if !ok {
          assert UnbindEach(start, Todo(held, desiredSet), fates) == Progress(up, calls, ours, ok);
          StoppedBinding(Progress(up, calls, ours, ok), Shortage(desired, bound), server, fates);
          return;
        }
      }
      assert UnbindEach(start, Todo(held, desiredSet), fates) == Progress(up, calls, ours, ok);
      ghost var middle := Progress(up, calls, ours, ok);
      var wanted := DedupeStrings(desired);
      for i := 0 to |wanted|
        invariant on ==> ok && BindEach(middle, Todo(wanted, boundSet), server, fates) ==
                               BindEach(Progress(up, calls, ours, ok), Todo(wanted[i..], boundSet), server, fates)
        invariant !on ==> Progress(up, calls, ours, ok) == middle
      {
        TodoStep(wanted, i, boundSet);
        if wanted[i] in boundSet { continue; }
        if !on { return; }
        ok := BindIp(wanted[i], fates);
        calls := calls + [Bind(wanted[i])];
        if !ok { return; }
      }
    }

    method Update(desired: seq<string>, on: bool, readable: bool, fates: map<string, Fate>)
      returns (calls: seq<Call>, ok: bool)
      modifies `up, `ours
      ensures View() == UpdateStep(old(View()), server, desired, on, readable, fates)
      ensures Progress(up, calls, ours, ok) == Updating(old(View()), server, desired, on, readable, fates)
    {
      if !readable { return [], false; }
      var bound := ObserveBound(desired + recorded, server);
      calls, ok := ReconcileBindings(desired, bound, on, fates);
    }

    /** Releases everything recorded before the server itself is deleted. */
    method Delete(fates: map<string, Fate>) returns (calls: seq<Call>, ok: bool)
      modifies `up, `ours
      ensures Progress(up, calls, ours, ok) == Deleting(old(View()), fates)
    {
      calls, ok := [], true;
      ghost var start := Progress(up, [], ours, true);
      for i := 0 to |recorded|
        invariant ok && UnbindEach(start, recorded, fates)
            == UnbindEach(Progress(up, calls, ours, ok), recorded[i..], fates)
      {
        assert recorded[i..][1..] == recorded[i + 1..];
        ok := UnbindIp(recorded[i], fates);
        calls := calls + [Unbind(recorded[i])];
        if !ok { return; }
      }
    }
  }

  lemma StoppedBinding(p: Progress, ids: seq<string>, server: nat, fates: map<string, Fate>)
    requires !p.ok
    ensures BindEach(p, ids, server, fates) == p
  {
  }
}
