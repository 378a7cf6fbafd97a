/** Binding passes and whole runs: what they achieve, leave alone and keep on the books. */
module FloatingIpTheorems {
  import opened Wrappers
  import opened Text
  import opened FloatingIp
  import Float32

  // ---- the effect of a list of calls ---------------------------------------------------------

  function Unbinds(ids: seq<string>): seq<Call> {
    seq(|ids|, i requires 0 <= i < |ids| => Unbind(ids[i]))
  }

  function Binds(ids: seq<string>): seq<Call> {
    seq(|ids|, i requires 0 <= i < |ids| => Bind(ids[i]))
  }

  predicate AllWork(ids: seq<string>, fates: map<string, Fate>) {
    forall i | 0 <= i < |ids| :: FateOf(fates, ids[i]) == Works
  }

  predicate SameOutside(a: Addresses, b: Addresses, ids: seq<string>) {
    a.Keys == b.Keys && forall ip | ip in a && ip !in ids :: a[ip] == b[ip]
  }

  /** The call is answered without an error. */
  predicate Succeeds(up: Addresses, c: Call, fates: map<string, Fate>) {
    (c.ip !in fates || fates[c.ip].Works?) && (c.Bind? ==> c.ip in up)
  }

  /** What an address holds after the call: the server it was sent, or nothing, unless the call did not get through. */
  predicate TookEffect(before: Addresses, after: Addresses, c: Call, server: nat, fates: map<string, Fate>) {
    c.ip in before && c.ip in after ==>
      after[c.ip] == if c.ip in fates && fates[c.ip].Fails? then before[c.ip]
                     else if c.Bind? then Some(Float32.Sent(server)) else None
  }

  /** All calls but the last succeed, and that one too if the pass does. */
  predicate StopsAtFailure(up: Addresses, calls: seq<Call>, ok: bool, fates: map<string, Fate>) {
    && (forall i | 0 <= i < |calls| - 1 :: Succeeds(up, calls[i], fates))
    && (ok ==> forall c | c in calls :: Succeeds(up, c, fates))
    && (!ok ==> |calls| > 0 && !Succeeds(up, calls[|calls| - 1], fates))
  }

  /** The calls a list of addresses led to, and what they did. */
  predicate Made(a: Addresses, b: Addresses, ids: seq<string>, made: seq<Call>, server: nat, fates: map<string, Fate>,
      ok: bool) {
    && StopsAtFailure(a, made, ok, fates) && a.Keys == b.Keys && SameOutside(a, b, ids)
    && (forall c | c in made :: c.ip in ids && TookEffect(a, b, c, server, fates))
  }

  lemma NothingMade(up: Addresses, ids: seq<string>, server: nat, fates: map<string, Fate>)
    ensures Made(up, up, ids, [], server, fates, true)
  {
  }

  lemma OneMade(a: Addresses, b: Addresses, c: Call, server: nat, fates: map<string, Fate>, ok: bool)
    requires a.Keys == b.Keys && SameOutside(a, b, [c.ip]) && TookEffect(a, b, c, server, fates)
    requires ok <==> Succeeds(a, c, fates)
    ensures Made(a, b, [c.ip], [c], server, fates, ok)
  {
  }

  lemma MadeOnly(a: Addresses, b: Addresses, ids: seq<string>, c: Call, server: nat, fates: map<string, Fate>)
    requires |ids| > 0 && c.ip == ids[0] && Made(a, b, [c.ip], [c], server, fates, false)
    ensures Made(a, b, ids, [c], server, fates, false)
  {
  }

  lemma MadeMore(a: Addresses, b: Addresses, d: Addresses, ids: seq<string>, c: Call, rest: seq<Call>, server: nat,
      fates: map<string, Fate>, ok: bool)
    requires |ids| > 0 && c.ip == ids[0] && Distinct(ids)
    requires Made(a, b, [c.ip], [c], server, fates, true) && Made(b, d, ids[1..], rest, server, fates, ok)
    ensures Made(a, d, ids, [c] + rest, server, fates, ok)
  {
    hide TookEffect, Succeeds, StopsAtFailure;
    assert ids[0] !in ids[1..];
    assert forall x :: x in ids <==> x == ids[0] || x in ids[1..];
    assert c in [c];
    FirstThenStops(a, b, c, rest, fates, ok);
    forall x | x in [c] + rest ensures x.ip in ids && TookEffect(a, d, x, server, fates) {
      if x == c { LaterElsewhere(a, b, d, c, server, fates); } else { EarlierElsewhere(a, b, d, x, server, fates); }
    }
  }

  lemma FirstThenStops(a: Addresses, b: Addresses, c: Call, rest: seq<Call>, fates: map<string, Fate>, ok: bool)
    requires a.Keys == b.Keys && StopsAtFailure(a, [c], true, fates) && StopsAtFailure(b, rest, ok, fates)
    ensures StopsAtFailure(a, [c] + rest, ok, fates)
  {
    hide Succeeds;
    var made := [c] + rest;
    SameSuccess(a, b, fates);
    assert Succeeds(a, c, fates) by { assert c in [c]; }
    forall i | 0 <= i < |made| - 1 ensures Succeeds(a, made[i], fates) {
      if i > 0 { assert made[i] == rest[i - 1]; }
    }
    assert |rest| > 0 ==> made[|made| - 1] == rest[|rest| - 1];
  }

  /** An effect stands when the address is left alone afterwards, or was before. */
  lemma LaterElsewhere(a: Addresses, b: Addresses, d: Addresses, c: Call, server: nat, fates: map<string, Fate>)
    requires b.Keys == d.Keys && (c.ip in b ==> d[c.ip] == b[c.ip]) && TookEffect(a, b, c, server, fates)
    ensures TookEffect(a, d, c, server, fates)
  {
  }

  lemma EarlierElsewhere(a: Addresses, b: Addresses, d: Addresses, c: Call, server: nat, fates: map<string, Fate>)
    requires a.Keys == b.Keys && (c.ip in a ==> b[c.ip] == a[c.ip]) && TookEffect(b, d, c, server, fates)
    ensures TookEffect(a, d, c, server, fates)
  {
  }

  lemma {:induction false} UnbindStops(p: Progress, ids: seq<string>, server: nat, fates: map<string, Fate>)
    returns (made: seq<Call>)
    requires p.ok && Distinct(ids)
    ensures var r := UnbindEach(p, ids, fates);
            && r.calls == p.calls + made && Made(p.up, r.up, ids, made, server, fates, r.ok)
            && (forall c | c in made :: c.Unbind?) && (r.ok ==> forall ip | ip in ids :: Unbind(ip) in made)
    decreases ids
  {
    hide Made;
    if |ids| == 0 {
      made := [];
      NothingMade(p.up, ids, server, fates);
    } else {
      var q, c := UnbindOne(p, ids[0], fates), Unbind(ids[0]);
      assert ids[0] !in ids[1..];
      OneMade(p.up, q.up, c, server, fates, q.ok);
      if q.ok {
        var rest := UnbindStops(q, ids[1..], server, fates);
        made := [c] + rest;
        assert p.calls + made == q.calls + rest;
        MadeMore(p.up, q.up, UnbindEach(q, ids[1..], fates).up, ids, c, rest, server, fates,
            UnbindEach(p, ids, fates).ok);
      } else {
        made := [c];
        MadeOnly(p.up, q.up, ids, c, server, fates);
      }
      assert forall ip | ip in ids :: ip == ids[0] || ip in ids[1..];
    }
  }

  lemma {:induction false} BindStops(p: Progress, ids: seq<string>, server: nat, fates: map<string, Fate>)
    returns (made: seq<Call>)
    requires p.ok && Distinct(ids)
    ensures var r := BindEach(p, ids, server, fates);
            && r.calls == p.calls + made && Made(p.up, r.up, ids, made, server, fates, r.ok)
            && (forall c | c in made :: c.Bind?) && (r.ok ==> forall ip | ip in ids :: Bind(ip) in made)
    decreases ids
  {
    hide Made;
    if |ids| == 0 {
      made := [];
      NothingMade(p.up, ids, server, fates);
    } else {
      var q, c := BindOne(p, ids[0], server, fates), Bind(ids[0]);
      assert ids[0] !in ids[1..];
      OneMade(p.up, q.up, c, server, fates, q.ok);
      if q.ok {
        var rest := BindStops(q, ids[1..], server, fates);
        made := [c] + rest;
        assert p.calls + made == q.calls + rest;
        MadeMore(p.up, q.up, BindEach(q, ids[1..], server, fates).up, ids, c, rest, server, fates,
            BindEach(p, ids, server, fates).ok);
      } else {
        made := [c];
        MadeOnly(p.up, q.up, ids, c, server, fates);
      }
      assert forall ip | ip in ids :: ip == ids[0] || ip in ids[1..];
    }
  }

  lemma SameSuccess(a: Addresses, b: Addresses, fates: map<string, Fate>)
    requires a.Keys == b.Keys
    ensures forall c :: Succeeds(a, c, fates) <==> Succeeds(b, c, fates)
  {
  }

  /** Whatever fails, the calls made are a prefix of the list and nothing outside it changes. */
  lemma {:induction false} UnbindPrefix(p: Progress, ids: seq<string>, fates: map<string, Fate>) returns (k: nat)
    requires p.ok
    ensures var r := UnbindEach(p, ids, fates);
            && k <= |ids| && r.calls == p.calls + Unbinds(ids[..k]) && (r.ok || AllWork(ids, fates) ==> k == |ids|)
            && (AllWork(ids, fates) ==> r.ok)
            && SameOutside(p.up, r.up, ids)
            && (r.ok ==> forall ip | ip in ids && ip in r.up :: r.up[ip] == None)
            && r.ours <= p.ours && (r.ok ==> r.ours == p.ours - SetOf(ids))
    decreases ids
  {
    if |ids| == 0 { return 0; }
    var q := UnbindOne(p, ids[0], fates);
    if !q.ok {
      assert FateOf(fates, ids[0]) != Works;
      assert Unbinds(ids[..1]) == [Unbind(ids[0])];
      return 1;
    }
    var m := UnbindPrefix(q, ids[1..], fates);
    k := m + 1;
    assert Unbinds(ids[..k]) == [Unbind(ids[0])] + Unbinds(ids[1..][..m]);
    assert AllWork(ids, fates) ==> AllWork(ids[1..], fates);
    assert forall ip :: ip in ids <==> ip == ids[0] || ip in ids[1..];
  }

  lemma {:induction false} BindPrefix(p: Progress, ids: seq<string>, server: nat, fates: map<string, Fate>)
    returns (k: nat)
    requires p.ok
    ensures var r := BindEach(p, ids, server, fates);
            var fine := AllWork(ids, fates) && forall ip | ip in ids :: ip in p.up;
            && k <= |ids| && r.calls == p.calls + Binds(ids[..k]) && (r.ok ==> k == |ids|)
            && (fine ==> r.ok)
            && SameOutside(p.up, r.up, ids)
            && (r.ok ==> forall ip | ip in ids :: ip in r.up && r.up[ip] == Some(Float32.Sent(server)))
    decreases ids
  {
    if |ids| == 0 { return 0; }
    var q := BindOne(p, ids[0], server, fates);
    if !q.ok {
      assert FateOf(fates, ids[0]) != Works || ids[0] !in p.up;
      assert Binds(ids[..1]) == [Bind(ids[0])];
      return 1;
    }
    var m := BindPrefix(q, ids[1..], server, fates);
    k := m + 1;
    assert Binds(ids[..k]) == [Bind(ids[0])] + Binds(ids[1..][..m]);
    assert AllWork(ids, fates) ==> AllWork(ids[1..], fates);
    assert forall ip :: ip in ids <==> ip == ids[0] || ip in ids[1..];
  }

  lemma {:induction false} TodoIs(ids: seq<string>, skip: set<string>)
    ensures forall x :: x in Todo(ids, skip) <==> x in ids && x !in skip
    ensures Distinct(ids) ==> Distinct(Todo(ids, skip))
  {
    if |ids| > 0 {
      TodoIs(ids[1..], skip);
      if Distinct(ids) { assert ids[0] !in ids[1..]; }
    }
  }

  /** The two lists a pass works through: recorded surplus and desired shortage. */
  lemma Delta(s: State, server: nat, desired: seq<string>)
    ensures var bound := Bound(s.up, desired + s.recorded, server);
            var surplus, shortage := Surplus(desired, bound), Shortage(desired, bound);
            && Distinct(surplus) && Distinct(shortage)
            && (forall ip :: ip in surplus <==> ip in s.recorded && ip !in desired && Holds(s.up, ip, server))
            && (forall ip :: ip in shortage <==> ip in desired && !Holds(s.up, ip, server))
  {
    var bound := Bound(s.up, desired + s.recorded, server);
    BoundIs(s.up, desired + s.recorded, server);
    DedupeIsSet(bound);
    DedupeIsSet(desired);
    TodoIs(Dedupe(bound), SetOf(desired));
    TodoIs(Dedupe(desired), SetOf(bound));
  }

  // ---- one pass -----------------------------------------------------------------------------------

  predicate NoAddressTwice(calls: seq<Call>) {
    forall i, j | 0 <= i < j < |calls| :: calls[i].ip != calls[j].ip
  }

  /**
   Whatever fails: each address is touched at most once, only surplus is released, only shortage is bound (and only
   when on), the rest stands.
   */
  lemma OnlyTheDeltaIsTouched(s: State, server: nat, desired: seq<string>, on: bool, readable: bool,
      fates: map<string, Fate>)
    ensures var p := Updating(s, server, desired, on, readable, fates);
            && NoAddressTwice(p.calls)
            && (forall c | c in p.calls && c.Unbind? ::
                  c.ip in s.recorded && c.ip !in desired && Holds(s.up, c.ip, server))
            && (forall c | c in p.calls && c.Bind? :: on && c.ip in desired && !Holds(s.up, c.ip, server))
            && p.up.Keys == s.up.Keys
            && forall ip | ip in s.up && (if Holds(s.up, ip, server) then ip in desired || ip !in s.recorded
                else ip !in desired) ::
                 p.up[ip] == s.up[ip]
  {
    if readable {
      var bound := Bound(s.up, desired + s.recorded, server);
      Delta(s, server, desired);
      TwoListsOnce(Progress(s.up, [], s.ours, true), Surplus(desired, bound), Shortage(desired, bound), server, on,
          fates);
    }
  }

  /**
   A pass stops at the first failing call and reports it; otherwise every surplus address was released and, when on,
   every shortage bound, releases first. An address called on has what the call says if it got through.
   */
  lemma PassStopsAtFailure(s: State, server: nat, desired: seq<string>, on: bool, readable: bool,
      fates: map<string, Fate>)
    ensures var p := Updating(s, server, desired, on, readable, fates);
            && (!readable ==> p.calls == [] && !p.ok && p.up == s.up)
            && (readable ==>
                  && StopsAtFailure(s.up, p.calls, p.ok, fates)
                  && (forall c | c in p.calls :: TookEffect(s.up, p.up, c, server, fates))
                  && (forall i, j | 0 <= i < j < |p.calls| :: p.calls[j].Unbind? ==> p.calls[i].Unbind?)
                  && (p.ok ==> forall ip | ip in s.recorded && ip !in desired && Holds(s.up, ip, server) ::
                        Unbind(ip) in p.calls)
                  && (p.ok && on ==> forall ip | ip in desired && !Holds(s.up, ip, server) :: Bind(ip) in p.calls))
  {
    if readable {
      hide Holds, Surplus, Shortage, Made;
      var bound := Bound(s.up, desired + s.recorded, server);
      var surplus, shortage := Surplus(desired, bound), Shortage(desired, bound);
      Delta(s, server, desired);
      var start := Progress(s.up, [], s.ours, true);
      var first := UnbindStops(start, surplus, server, fates);
      var middle := UnbindEach(start, surplus, fates);
      assert middle.calls == first;
      if on && middle.ok {
        var second := BindStops(middle, shortage, server, fates);
        var p := BindEach(middle, shortage, server, fates);
        TwoMade(s.up, middle.up, p.up, first, second, surplus, shortage, server, fates, p.ok);
        assert p.calls == first + second;
      } else {
        if on { StoppedBinding(middle, shortage, server, fates); }
        NothingMade(middle.up, shortage, server, fates);
        OneListMade(s.up, middle.up, surplus, first, server, fates, middle.ok);
      }
    }
  }

  lemma OneListMade(a: Addresses, b: Addresses, ids: seq<string>, made: seq<Call>, server: nat,
      fates: map<string, Fate>, ok: bool)
    requires Made(a, b, ids, made, server, fates, ok) && forall c | c in made :: c.Unbind?
    ensures StopsAtFailure(a, made, ok, fates) && forall c | c in made :: TookEffect(a, b, c, server, fates)
    ensures forall i, j | 0 <= i < j < |made| :: made[j].Unbind? ==> made[i].Unbind?
  {
    assert forall i | 0 <= i < |made| :: made[i] in made;
  }

  /** Calls on two disjoint lists, one after the other. */
  lemma TwoMade(a: Addresses, b: Addresses, d: Addresses, first: seq<Call>, second: seq<Call>, surplus: seq<string>,
      shortage: seq<string>, server: nat, fates: map<string, Fate>, ok: bool)
    requires (forall x | x in surplus :: x !in shortage)
    requires Made(a, b, surplus, first, server, fates, true) && forall c | c in first :: c.Unbind?
    requires Made(b, d, shortage, second, server, fates, ok) && forall c | c in second :: c.Bind?
    ensures var all := first + second;
            && StopsAtFailure(a, all, ok, fates) && (forall c | c in all :: TookEffect(a, d, c, server, fates))
            && (forall i, j | 0 <= i < j < |all| :: all[j].Unbind? ==> all[i].Unbind?)
  {
    var all := first + second;
    SameSuccess(a, b, fates);
    forall i | 0 <= i < |all|
      ensures if i < |first| then all[i] in first && all[i].Unbind? else all[i] in second && all[i].Bind?
    {
    }
    forall i | 0 <= i < |all| - 1 ensures Succeeds(a, all[i], fates) {
      if i >= |first| { assert all[i] == second[i - |first|]; }
    }
    assert |second| > 0 ==> all[|all| - 1] == second[|second| - 1];
    forall c | c in all ensures TookEffect(a, d, c, server, fates) {
      if c in first { assert TookEffect(a, b, c, server, fates); } else { assert TookEffect(b, d, c, server, fates); }
    }
  }

  /** Releasing one list and then binding a disjoint one. */
  lemma TwoListsOnce(start: Progress, surplus: seq<string>, shortage: seq<string>, server: nat, on: bool,
      fates: map<string, Fate>)
    requires start.ok && start.calls == [] && Distinct(surplus) && Distinct(shortage)
    requires forall x | x in surplus :: x !in shortage
    ensures var middle := UnbindEach(start, surplus, fates);
            var p := if on then BindEach(middle, shortage, server, fates) else middle;
            && NoAddressTwice(p.calls)
            && (forall c | c in p.calls && c.Unbind? :: c.ip in surplus)
            && (forall c | c in p.calls && c.Bind? :: on && c.ip in shortage)
            && SameOutside(start.up, p.up, surplus + if on then shortage else [])
  {
    var k := UnbindPrefix(start, surplus, fates);
    var middle := UnbindEach(start, surplus, fates);
    if on && middle.ok {
      var m := BindPrefix(middle, shortage, server, fates);
      CallsOnce(surplus, k, shortage, m);
    } else {
      if !middle.ok { StoppedBinding(middle, shortage, server, fates); }
      CallsOnce(surplus, k, [], 0);
    }
  }

  lemma CallsOnce(a: seq<string>, k: nat, b: seq<string>, m: nat)
    requires Distinct(a) && Distinct(b) && k <= |a| && m <= |b| && forall x | x in a :: x !in b
    ensures var calls := Unbinds(a[..k]) + Binds(b[..m]);
            && NoAddressTwice(calls)
            && (forall c | c in calls && c.Unbind? :: c.ip in a) && (forall c | c in calls && c.Bind? :: c.ip in b)
  {
    var calls := Unbinds(a[..k]) + Binds(b[..m]);
    forall i | 0 <= i < |calls|
      ensures if i < k then calls[i] == Unbind(a[i]) && a[i] in a else calls[i] == Bind(b[i - k]) && b[i - k] in b
    {
    }
  }

  /**
   With the server on, the addresses existing and every call working, every desired address reads back as held
   afterwards; a recorded one that is not desired stays held exactly when it was and single precision cannot hold the
   server id.
   */
  lemma PassBindsExactly(s: State, server: nat, desired: seq<string>, fates: map<string, Fate>)
    requires (forall ip | ip in desired :: ip in s.up) && AllWork(desired + s.recorded, fates)
    ensures var p := Updating(s, server, desired, true, true, fates);
            && p.ok && p.up.Keys == s.up.Keys
            && (forall ip | ip in desired || ip in s.recorded :: Holds(p.up, ip, Float32.Round(server)) <==>
                  ip in desired || (Holds(s.up, ip, Float32.Round(server)) && Float32.Round(server) != server))
            && forall ip | ip in s.up && ip !in desired && ip !in s.recorded :: p.up[ip] == s.up[ip]
  {
    Float32.SentReadsBack(server);
    PassEffect(s, server, desired, fates);
    forall ip | Float32.Round(server) != server ensures !Holds(s.up, ip, server) {
      UnrepresentableNeverHolds(s.up, ip, server);
    }
  }

  lemma PassEffect(s: State, server: nat, desired: seq<string>, fates: map<string, Fate>)
    requires (forall ip | ip in desired :: ip in s.up) && AllWork(desired + s.recorded, fates)
    ensures var p := Updating(s, server, desired, true, true, fates);
            && p.ok && p.up.Keys == s.up.Keys
            && forall ip | ip in s.up ::
                 p.up[ip] == if Holds(s.up, ip, server)
                     then (if ip in s.recorded && ip !in desired then None else s.up[ip])
                             else (if ip in desired then Some(Float32.Sent(server)) else s.up[ip])
  {
    var bound := Bound(s.up, desired + s.recorded, server);
    var surplus, shortage := Surplus(desired, bound), Shortage(desired, bound);
    Delta(s, server, desired);
    forall i | 0 <= i < |surplus|
      ensures FateOf(fates, surplus[i]) == Works
    {
      WorksOn(desired, s.recorded, fates, surplus[i]);
    }
    forall i | 0 <= i < |shortage|
      ensures FateOf(fates, shortage[i]) == Works
    {
      WorksOn(desired, s.recorded, fates, shortage[i]);
    }
    var start := Progress(s.up, [], s.ours, true);
    var k := UnbindPrefix(start, surplus, fates);
    var middle := UnbindEach(start, surplus, fates);
    forall ip | ip in shortage ensures ip in middle.up { assert ip in desired; }
    var m := BindPrefix(middle, shortage, server, fates);
  }

  lemma WorksOn(a: seq<string>, b: seq<string>, fates: map<string, Fate>, ip: string)
    requires AllWork(a + b, fates) && (ip in a || ip in b)
    ensures FateOf(fates, ip) == Works
  {
    assert ip in a + b;
  }

  /** A server id that single precision cannot hold is never read back. */
  lemma UnrepresentableNeverHolds(up: Addresses, ip: string, server: nat)
    requires Float32.Round(server) != server
    ensures !Holds(up, ip, server)
  {
    if ip in up && up[ip].Some? { Float32.RoundIdempotent(up[ip].value); }
  }

  ghost predicate Clean(s: State, desired: seq<string>) {
    forall x :: x in s.recorded <==> x in desired
  }

  /**
   One working pass makes the next Observe clean exactly when single precision represents the server id, or no recorded
   address that was dropped from the spec is still held.
   */
  lemma OnePassConvergesIff(s: State, server: nat, desired: seq<string>, fates: map<string, Fate>)
    requires (forall ip | ip in desired :: ip in s.up) && AllWork(desired + s.recorded, fates)
    ensures Clean(ObserveStep(UpdateStep(s, server, desired, true, true, fates), server, desired, true), desired) <==>
            || Float32.Round(server) == server
            || forall ip | ip in s.recorded && ip !in desired :: !Holds(s.up, ip, Float32.Round(server))
  {
    var after := UpdateStep(s, server, desired, true, true, fates);
    BoundIs(after.up, desired + s.recorded, Float32.Round(server));
    PassBindsExactly(s, server, desired, fates);
  }

  /** The address is held by this server and no other. */
  predicate TrulyHeld(up: Addresses, ip: string, server: nat) {
    ip in up && up[ip] == Some(server)
  }

  /**
   The imported id 16777217 is reported as 16777216: it binds its addresses and looks clean, but never lets a dropped
   one go.
   */
  lemma ImportedOddId(s: State, desired: seq<string>, fates: map<string, Fate>)
    requires (forall ip | ip in desired :: ip in s.up) && AllWork(desired + s.recorded, fates)
    ensures var after := UpdateStep(s, 16777217, desired, true, true, fates);
            var clean := Clean(ObserveStep(after, 16777217, desired, true), desired);
            && (s.recorded == [] ==> clean)
            && forall ip | ip in s.recorded && ip !in desired && TrulyHeld(s.up, ip, 16777217) ::
                !clean && TrulyHeld(after.up, ip, 16777217)
  {
    Float32.ExactUpTo24Bits(0);
    PassEffect(s, 16777217, desired, fates);
    OnePassConvergesIff(s, 16777217, desired, fates);
    forall ip ensures !Holds(s.up, ip, 16777217) { UnrepresentableNeverHolds(s.up, ip, 16777217); }
  }

  /**
   After a working pass every desired address is recorded by the next Observe, and is held by this very server exactly
   when it was read back as held and was so already, or was not and the id survives being written down.
   */
  lemma TrulyHeldIff(s: State, server: nat, desired: seq<string>, fates: map<string, Fate>, ip: string)
    requires ip in desired && (forall x | x in desired :: x in s.up) && AllWork(desired + s.recorded, fates)
    ensures var after := UpdateStep(s, server, desired, true, true, fates);
            && ip in ObserveStep(after, server, desired, true).recorded
            && (TrulyHeld(after.up, ip, server) <==>
                  if Holds(s.up, ip, server) then TrulyHeld(s.up, ip, server) else Float32.Sent(server) == server)
  {
    PassEffect(s, server, desired, fates);
    PassBindsExactly(s, server, desired, fates);
    BoundIs(UpdateStep(s, server, desired, true, true, fates).up, desired + s.recorded, Float32.Round(server));
  }

  /** Below 24 bits every id is read back and sent as itself, so a clean Observe means the addresses are really held. */
  lemma SmallIdsAreTrue(up: Addresses, ip: string, server: nat)
    requires server < Float32.SIGNIFICANT
    ensures Holds(up, ip, server) <==> TrulyHeld(up, ip, server)
    ensures Float32.Sent(server) == server
  {
    Float32.SentIds(server);
    Float32.ExactUpTo24Bits(server);
    if ip in up && up[ip].Some? && Float32.Round(up[ip].value) == server { Float32.OnlyItself(server, up[ip].value); }
  }

  /** The server with id 134217744 never gets a free address that is desired for it, and never notices. */
  lemma ShortenedIdIsNeverBound(s: State, desired: seq<string>, fates: map<string, Fate>, ip: string)
    requires ip in desired && ip in s.up && s.up[ip].None?
    requires (forall x | x in desired :: x in s.up) && AllWork(desired + s.recorded, fates)
    ensures var after := UpdateStep(s, 134217744, desired, true, true, fates);
            Clean(ObserveStep(after, 134217744, desired, true), desired) && ip in after.up
                && after.up[ip] == Some(134217740)
  {
    Float32.SentIds(0);
    PassEffect(s, 134217744, desired, fates);
    OnePassConvergesIff(s, 134217744, desired, fates);
  }

  // ---- whole runs ------------------------------------------------------------------------------------

  /** A reconcile half, or somebody else creating, moving, releasing or deleting an address. */
  datatype Event =
    | Observing(desired: seq<string>, readable: bool)
    | Reconciling(desired: seq<string>, on: bool, readable: bool, fates: map<string, Fate>)
    | Elsewhere(ip: string, holder: Option<Option<nat>>)

  /** The state with the addresses bound since the recorded list was last written. */
  datatype Ledger = Ledger(s: State, since: set<string>)

  function BoundBy(calls: seq<Call>): set<string> {
    set c | c in calls && c.Bind? :: c.ip
  }

  function Step(l: Ledger, server: nat, e: Event): Ledger {
    match e
    case Observing(d, readable) => Ledger(ObserveStep(l.s, server, d, readable), if readable then {} else l.since)
    case Reconciling(d, on, readable, fates) =>
      Ledger(UpdateStep(l.s, server, d, on, readable, fates),
          l.since + BoundBy(Updating(l.s, server, d, on, readable, fates).calls))
    case Elsewhere(ip, holder) =>
      var up := if holder.Some? then l.s.up[ip := holder.value] else l.s.up - {ip};
      Ledger(State(up, l.s.recorded, l.s.ours - {ip}), l.since)
  }

  function After(l: Ledger, server: nat, run: seq<Event>): Ledger
    decreases run
  {
    if |run| == 0 then l else After(Step(l, server, run[0]), server, run[1..])
  }

  /** Everything this controller bound and nobody moved since is recorded, or was bound after the last recording. */
  predicate Tracked(l: Ledger, server: nat) {
    forall ip | ip in l.s.ours ::
      ip in l.s.up && l.s.up[ip] == Some(Float32.Sent(server)) && (ip in l.s.recorded || ip in l.since)
  }

  predicate Mine(up: Addresses, ours: set<string>, server: nat) {
    forall ip | ip in ours :: ip in up && up[ip] == Some(Float32.Sent(server))
  }

  lemma {:induction false} UnbindMine(p: Progress, ids: seq<string>, fates: map<string, Fate>, server: nat)
    requires Mine(p.up, p.ours, server)
    ensures var r := UnbindEach(p, ids, fates);
            Mine(r.up, r.ours, server) && r.ours <= p.ours && BoundBy(r.calls) == BoundBy(p.calls)
    decreases ids
  {
    if p.ok && |ids| > 0 {
      var q := UnbindOne(p, ids[0], fates);
      assert BoundBy(q.calls) == BoundBy(p.calls);
      UnbindMine(q, ids[1..], fates, server);
    }
  }

  lemma {:induction false} BindMine(p: Progress, ids: seq<string>, server: nat, fates: map<string, Fate>)
    requires Mine(p.up, p.ours, server)
    ensures var r := BindEach(p, ids, server, fates);
            Mine(r.up, r.ours, server) && r.ours <= p.ours + BoundBy(r.calls) && BoundBy(p.calls) <= BoundBy(r.calls)
    decreases ids
  {
    if p.ok && |ids| > 0 {
      var q := BindOne(p, ids[0], server, fates);
      assert BoundBy(q.calls) == BoundBy(p.calls) + {ids[0]} by {
        assert forall c :: c in q.calls <==> c in p.calls || c == Bind(ids[0]);
      }
      BindMine(q, ids[1..], server, fates);
    }
  }

  lemma UpdateMine(s: State, server: nat, desired: seq<string>, on: bool, readable: bool, fates: map<string, Fate>)
    requires Mine(s.up, s.ours, server)
    ensures var p := Updating(s, server, desired, on, readable, fates);
            Mine(p.up, p.ours, server) && p.ours <= s.ours + BoundBy(p.calls)
  {
    if readable {
      var bound := Bound(s.up, desired + s.recorded, server);
      var start := Progress(s.up, [], s.ours, true);
      UnbindMine(start, Surplus(desired, bound), fates, server);
      BindMine(UnbindEach(start, Surplus(desired, bound), fates), Shortage(desired, bound), server, fates);
    }
  }

  /** At every recording, what was bound since the last one is still desired or already recorded. */
  predicate Steady(l: Ledger, server: nat, run: seq<Event>)
    decreases run
  {
    |run| > 0 ==>
      && (run[0].Observing? && run[0].readable ==> forall ip | ip in l.since ::
          ip in run[0].desired || ip in l.s.recorded)
      && Steady(Step(l, server, run[0]), server, run[1..])
  }

  lemma StepTracks(l: Ledger, server: nat, e: Event)
    requires Tracked(l, server)
    requires e.Observing? && e.readable ==> forall ip | ip in l.since :: ip in e.desired || ip in l.s.recorded
    ensures Tracked(Step(l, server, e), server)
  {
    Float32.SentReadsBack(server);
    match e
    case Observing(d, readable) => BoundIs(l.s.up, d + l.s.recorded, Float32.Round(server));
    case Reconciling(d, on, readable, fates) => UpdateMine(l.s, server, d, on, readable, fates);
    case Elsewhere(ip, holder) =>
  }

  /** Over every run that is steady, no address this controller bound is ever lost from its books. */
  lemma {:induction false} SteadyRunsTrack(l: Ledger, server: nat, run: seq<Event>)
    requires Tracked(l, server) && Steady(l, server, run)
    ensures Tracked(After(l, server, run), server)
    decreases run
  {
    if |run| > 0 {
      StepTracks(l, server, run[0]);
      SteadyRunsTrack(Step(l, server, run[0]), server, run[1..]);
    }
  }

  /** A run that never changes the desired list is steady. */
  lemma {:induction false} FixedDesiredIsSteady(l: Ledger, server: nat, desired: seq<string>, run: seq<Event>)
    requires forall ip | ip in l.since :: ip in desired
    requires forall e | e in run :: e.Elsewhere? || e.desired == desired
    ensures Steady(l, server, run)
    decreases run
  {
    if |run| > 0 {
      var e := run[0];
      assert e in run;
      if e.Reconciling? { OnlyTheDeltaIsTouched(l.s, server, desired, e.on, e.readable, e.fates); }
      FixedDesiredIsSteady(Step(l, server, e), server, desired, run[1..]);
    }
  }

  /** At a recording, an address bound since the last one is kept exactly when it is still desired or was recorded. */
  lemma KeptIff(l: Ledger, server: nat, desired: seq<string>, ip: string)
    requires Tracked(l, server) && ip in l.s.ours
    ensures ip in ObserveStep(l.s, server, desired, true).recorded <==> ip in desired || ip in l.s.recorded
  {
    Float32.SentReadsBack(server);
    BoundIs(l.s.up, desired + l.s.recorded, Float32.Round(server));
  }

  /**
   An address dropped from the books stays bound and unrecorded for as long as nobody desires it again or moves it.
   */
  lemma {:induction false} LeakIsPermanent(l: Ledger, server: nat, ip: string, run: seq<Event>)
    requires ip in l.s.up && ip !in l.s.recorded
    requires forall e | e in run :: if e.Elsewhere? then e.ip != ip else ip !in e.desired
    ensures var d := After(l, server, run); ip in d.s.up && d.s.up[ip] == l.s.up[ip] && ip !in d.s.recorded
    decreases run
  {
    if |run| > 0 {
      var e := run[0];
      assert e in run;
      match e {
        case Observing(d, readable) => BoundIs(l.s.up, d + l.s.recorded, Float32.Round(server));
        case Reconciling(d, on, readable, fates) => OnlyTheDeltaIsTouched(l.s, server, d, on, readable, fates);
        case Elsewhere(_, _) =>
      }
      LeakIsPermanent(Step(l, server, e), server, ip, run[1..]);
    }
  }

  /**
   With an id single precision cannot hold, a recorded address that is dropped from the spec is never released and
   flagged by every Observe.
   */
  lemma {:induction false} UnrepresentableNeverReleases(l: Ledger, server: nat, ip: string, run: seq<Event>)
    requires Float32.Round(server) != server && ip in l.s.recorded && Holds(l.s.up, ip, Float32.Round(server))
    requires forall e | e in run :: if e.Elsewhere? then e.ip != ip else ip !in e.desired
    ensures var d := After(l, server, run);
            && ip in d.s.up && d.s.up[ip] == l.s.up[ip] && ip in d.s.recorded
            && forall desired | ip !in desired :: !Clean(ObserveStep(d.s, server, desired, true), desired)
    decreases run
  {
    if |run| == 0 {
      forall desired ensures ip in ObserveStep(l.s, server, desired, true).recorded {
        BoundIs(l.s.up, desired + l.s.recorded, Float32.Round(server));
      }
    } else {
      var e := run[0];
      assert e in run;
      match e {
        case Observing(d, readable) => BoundIs(l.s.up, d + l.s.recorded, Float32.Round(server));
        case Reconciling(d, on, readable, fates) =>
          UnrepresentableNeverHolds(l.s.up, ip, server);
          OnlyTheDeltaIsTouched(l.s, server, d, on, readable, fates);
        case Elsewhere(_, _) =>
      }
      UnrepresentableNeverReleases(Step(l, server, e), server, ip, run[1..]);
    }
  }

  /**
   An address bound by a pass and dropped from the spec before the next recording is lost: bound, unrecorded, out of
   Delete's reach.
   */
  lemma DroppedBeforeRecordingLeaks(s: State, server: nat, desired: seq<string>, fates: map<string, Fate>,
                                    ip: string, edited: seq<string>, deleting: map<string, Fate>)
    requires (forall x | x in desired :: x in s.up) && AllWork(desired + s.recorded, fates)
    requires ip in desired && ip !in s.recorded && !Holds(s.up, ip, server) && ip !in edited
    ensures var d := ObserveStep(UpdateStep(s, server, desired, true, true, fates), server, edited, true);
            && ip in d.up && d.up[ip] == Some(Float32.Sent(server)) && ip !in d.recorded
            && forall c | c in Deleting(d, deleting).calls :: c.ip != ip
  {
    PassEffect(s, server, desired, fates);
    var u := UpdateStep(s, server, desired, true, true, fates);
    BoundIs(u.up, edited + s.recorded, Float32.Round(server));
    var d := ObserveStep(u, server, edited, true);
    var k := UnbindPrefix(Progress(d.up, [], d.ours, true), d.recorded, deleting);
    forall c | c in Unbinds(d.recorded[..k]) ensures c.ip in d.recorded {
    }
  }

  /**
   Delete releases whatever is recorded, wherever it is bound now; a tracked controller with nothing bound since holds
   nothing afterwards.
   */
  lemma DeleteReleasesAll(l: Ledger, server: nat, fates: map<string, Fate>)
    requires AllWork(l.s.recorded, fates)
    ensures var p := Deleting(l.s, fates);
            && p.ok && (forall ip | ip in l.s.recorded && ip in p.up :: p.up[ip] == None)
            && SameOutside(l.s.up, p.up, l.s.recorded)
            && (Tracked(l, server) && l.since == {} ==> p.ours == {})
  {
    var k := UnbindPrefix(Progress(l.s.up, [], l.s.ours, true), l.s.recorded, fates);
  }

  /** The recorded list never repeats an address: it is what an Observe confirmed last. */
  lemma RecordedOnce(s: State, server: nat, desired: seq<string>)
    ensures Distinct(ObserveStep(s, server, desired, true).recorded)
  {
    DedupeIsSet(desired + s.recorded);
    HeldOnce(s.up, Dedupe(desired + s.recorded), Float32.Round(server));
  }

  lemma {:induction false} HeldOnce(up: Addresses, ips: seq<string>, server: nat)
    requires Distinct(ips)
    ensures Distinct(Held(up, ips, server))
  {
    if |ips| > 0 {
      HeldOnce(up, ips[1..], server);
      HeldIs(up, ips[1..], server);
      assert ips[0] !in ips[1..];
    }
  }

  /** Delete, too, stops at the first failing release and reports it; otherwise it released every recorded address. */
  lemma DeleteStopsAtFailure(s: State, server: nat, fates: map<string, Fate>)
    requires Distinct(s.recorded)
    ensures var p := Deleting(s, fates);
            && StopsAtFailure(s.up, p.calls, p.ok, fates)
            && (forall c | c in p.calls :: c.Unbind? && c.ip in s.recorded && TookEffect(s.up, p.up, c, server, fates))
            && (p.ok ==> forall ip | ip in s.recorded :: Unbind(ip) in p.calls)
  {
    var made := UnbindStops(Progress(s.up, [], s.ours, true), s.recorded, server, fates);
    assert Deleting(s, fates).calls == made;
  }
}
