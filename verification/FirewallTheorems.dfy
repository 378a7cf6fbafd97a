/** Firewall convergence, drift, rule identity, exclusive attachment. */
module FirewallTheorems {
  import opened Wrappers
  import opened Text
  import opened SetReconcile
  import opened Firewall
  import FirewallContents
  import FirewallController

  // ---- rule identity ----------------------------------------------------------------------

  /** What makes two rules the same: case never matters, icmp has no port, an empty port is no port. */
  datatype Identity = Identity(direction: string, protocol: string, port: string, cidr: string)

  function IdentityOf(r: Rule): Identity {
    Identity(ToLower(r.direction), ToLower(r.protocol),
             if ToLower(r.protocol) == "icmp" || r.port.None? then "" else r.port.value, r.cidr)
  }

  function KeyOf(i: Identity): string {
    i.direction + ['|'] + (i.protocol + ['|'] + (i.port + ['|'] + i.cidr))
  }

  /** No pipe anywhere, except that a doubled icmp protocol with a port cannot be read in another way. */
  predicate Unmistakable(i: Identity) {
    && Free(i.direction, '|') && Free(i.port, '|') && Free(i.cidr, '|')
    && (Free(i.protocol, '|') || (i.protocol == "icmp|icmp" && i.port != ""))
  }

  lemma PipesOfKey(i: Identity)
    ensures Pipes(KeyOf(i)) == 3 + Pipes(i.direction) + Pipes(i.protocol) + Pipes(i.port) + Pipes(i.cidr)
  {
    PipesJoined(i.port, i.cidr);
    PipesJoined(i.protocol, i.port + ['|'] + i.cidr);
    PipesJoined(i.direction, i.protocol + ['|'] + (i.port + ['|'] + i.cidr));
  }

  /** Four pipe-free parts are read off the key in one way. */
  lemma PlainKeys(i: Identity, j: Identity)
    requires Pipes(i.direction) + Pipes(i.protocol) + Pipes(i.port) + Pipes(i.cidr) == 0 && KeyOf(i) == KeyOf(j)
    ensures i == j
  {
    PipesOfKey(i);
    PipesOfKey(j);
    FreeHasNoPipes(i.direction);
    FreeHasNoPipes(j.direction);
    FreeHasNoPipes(i.protocol);
    FreeHasNoPipes(j.protocol);
    FreeHasNoPipes(i.port);
    FreeHasNoPipes(j.port);
    var x1, x2 := i.port + ['|'] + i.cidr, j.port + ['|'] + j.cidr;
    CutUnique(i.direction, j.direction, i.protocol + ['|'] + x1, j.protocol + ['|'] + x2, '|');
    CutUnique(i.protocol, j.protocol, x1, x2, '|');
    CutUnique(i.port, j.port, i.cidr, j.cidr, '|');
  }

  /** Icmp carries no port. */
  predicate Portless(i: Identity) {
    i.protocol == "icmp" ==> i.port == ""
  }

  /** The doubled icmp with a port: any other reading would give icmp a port. */
  lemma DoubledIcmp(i: Identity, j: Identity)
    requires i.protocol == "icmp|icmp" && i.port != "" && Unmistakable(i) && Portless(j) && KeyOf(i) == KeyOf(j)
    ensures i == j
  {
    var tail := "icmp" + ['|'] + (i.port + ['|'] + i.cidr);
    assert KeyOf(i) == i.direction + ['|'] + ("icmp" + ['|'] + tail);
    var rest := j.port + ['|'] + j.cidr;
    if Free(j.direction, '|') {
      CutUnique(i.direction, j.direction, "icmp" + ['|'] + tail, j.protocol + ['|'] + rest, '|');
      if Free(j.protocol, '|') {
        CutUnique("icmp", j.protocol, tail, rest, '|');
        CutUnique("icmp", "", i.port + ['|'] + i.cidr, j.cidr, '|');
      } else {
        var a, b := FirstPipe(j.protocol);
        assert j.protocol + ['|'] + rest == a + ['|'] + (b + ['|'] + rest);
        CutUnique("icmp", a, tail, b + ['|'] + rest, '|');
        var short, other := Identity("", "icmp", i.port, i.cidr), Identity("", b, j.port, j.cidr);
        FreeHasNoPipes(i.port);
        FreeHasNoPipes(i.cidr);
        assert KeyOf(short) == KeyOf(other);
        PlainKeys(short, other);
      }
    } else {
      var a, b := FirstPipe(j.direction);
      var after := j.protocol + ['|'] + rest;
      assert KeyOf(j) == a + ['|'] + (b + ['|'] + after);
      CutUnique(i.direction, a, "icmp" + ['|'] + tail, b + ['|'] + after, '|');
      var long := Identity("icmp", "icmp", i.port, i.cidr);
      FreeHasNoPipes(i.port);
      FreeHasNoPipes(i.cidr);
      PlainKeys(long, Identity(b, j.protocol, j.port, j.cidr));
    }
  }

  predicate IsLower(s: string) {
    forall i | 0 <= i < |s| :: LowerChar(s[i]) == s[i]
  }

  lemma LowerIsFixed(s: string)
    requires IsLower(s)
    ensures ToLower(s) == s
  {
  }

  /** A rule with this identity, when direction and protocol are lower case and icmp has no port. */
  lemma RuleFor(i: Identity) returns (t: Rule)
    requires IsLower(i.direction) && IsLower(i.protocol) && Portless(i)
    ensures IdentityOf(t) == i
  {
    t := Rule(i.direction, i.protocol, Some(i.port), i.cidr, None);
    LowerIsFixed(i.direction);
    LowerIsFixed(i.protocol);
  }

  lemma LowerParts(s: string, a: string, b: string)
    requires IsLower(s) && s == a + ['|'] + b
    ensures IsLower(a) && IsLower(b)
  {
    assert forall k | 0 <= k < |a| :: s[k] == a[k];
    assert forall k | 0 <= k < |b| :: s[|a| + 1 + k] == b[k];
  }

  lemma LowerJoined(a: string, b: string)
    requires IsLower(a) && IsLower(b)
    ensures IsLower(a + ['|'] + b)
  {
  }

  /** Another identity with the same key, whenever there is a pipe that can be read in two ways. */
  lemma Mistaken(i: Identity) returns (j: Identity)
    requires IsLower(i.direction) && IsLower(i.protocol) && Portless(i) && !Unmistakable(i)
    ensures IsLower(j.direction) && IsLower(j.protocol) && Portless(j) && KeyOf(i) == KeyOf(j) && i != j
  {
    if !Free(i.direction, '|') {
      var a, b := FirstPipe(i.direction);
      LowerParts(i.direction, a, b);
      LowerJoined(b, i.protocol);
      PipeInside(b, i.protocol);
      j := Identity(a, b + ['|'] + i.protocol, i.port, i.cidr);
      assert |a| < |i.direction|;
    } else if !Free(i.port, '|') {
      var a, b := FirstPipe(i.port);
      j := Identity(i.direction, i.protocol, a, b + ['|'] + i.cidr);
      assert |a| < |i.port|;
    } else if !Free(i.cidr, '|') {
      var a, b := FirstPipe(i.cidr);
      if i.protocol == "icmp" {
        LowerJoined(i.direction, "icmp");
        j := Identity(i.direction + ['|'] + "icmp", "", a, b);
      } else {
        j := Identity(i.direction, i.protocol, i.port + ['|'] + a, b);
      }
      assert |b| < |i.cidr|;
    } else {
      j := MistakenProtocol(i);
    }
  }

  lemma PipeInside(a: string, b: string)
    ensures a + ['|'] + b != "icmp"
  {
    assert (a + ['|'] + b)[|a|] == '|';
    assert Free("icmp", '|');
  }

  lemma ReadTwoWays(d: string, a: string, b: string, o: string, c: string)
    ensures KeyOf(Identity(d, a + ['|'] + b, o, c)) == KeyOf(Identity(d, a, b + ['|'] + o, c))
    ensures KeyOf(Identity(d, a + ['|'] + b, o, c)) == KeyOf(Identity(d + ['|'] + a, b, o, c))
  {
  }

  lemma MistakenProtocol(i: Identity) returns (j: Identity)
    requires IsLower(i.direction) && IsLower(i.protocol) && Portless(i) && !Free(i.protocol, '|')
    requires i.protocol == "icmp|icmp" ==> i.port == ""
    ensures IsLower(j.direction) && IsLower(j.protocol) && Portless(j) && KeyOf(i) == KeyOf(j) && i != j
  {
    hide KeyOf;
    var a, b := FirstPipe(i.protocol);
    LowerParts(i.protocol, a, b);
    ReadTwoWays(i.direction, a, b, i.port, i.cidr);
    if a != "icmp" {
      j := Identity(i.direction, a, b + ['|'] + i.port, i.cidr);
      assert |a| < |i.protocol|;
    } else {
      LowerJoined(i.direction, a);
      j := Identity(i.direction + ['|'] + a, b, i.port, i.cidr);
      assert b == "icmp" ==> i.protocol == "icmp|icmp";
    }
  }

  lemma ToLowerIsLower(s: string)
    ensures IsLower(ToLower(s))
  {
  }

  /** The key tells a rule from every other one exactly when no pipe of it can be read in two ways. */
  lemma KeysIdentifyRules(r: Rule)
    ensures (forall t: Rule :: RuleKey(r) == RuleKey(t) <==> IdentityOf(r) == IdentityOf(t)) <==>
        Unmistakable(IdentityOf(r))
  {
    hide Unmistakable;
    var i := IdentityOf(r);
    forall t: Rule ensures RuleKey(t) == KeyOf(IdentityOf(t)) && Portless(IdentityOf(t)) {
    }
    if Unmistakable(i) {
      forall t: Rule | RuleKey(r) == RuleKey(t) ensures i == IdentityOf(t) {
        KeyReadsOnce(i, IdentityOf(t));
      }
    } else {
      ToLowerIsLower(r.direction);
      ToLowerIsLower(r.protocol);
      var j := Mistaken(i);
      var t := RuleFor(j);
      assert RuleKey(r) == RuleKey(t);
    }
  }

  lemma KeyReadsOnce(i: Identity, j: Identity)
    requires Unmistakable(i) && Portless(j) && KeyOf(i) == KeyOf(j)
    ensures i == j
  {
    if Free(i.protocol, '|') {
      FreeHasNoPipes(i.direction);
      FreeHasNoPipes(i.protocol);
      FreeHasNoPipes(i.port);
      FreeHasNoPipes(i.cidr);
      PlainKeys(i, j);
    } else {
      DoubledIcmp(i, j);
    }
  }

  // ---- the list transformations, seen as keys ---------------------------------------------------

  lemma {:induction false} KeptRuleKeys(rules: seq<Listed>, want: set<string>, n: nat)
    ensures RuleKeys(KeptRules(rules, want, n)) == KeptKeys(RuleKeys(rules), want, n)
  {
    hide RuleKey;
    if |rules| > 0 && n > 0 {
      var keys := RuleKeys(rules);
      assert keys[0] == RuleKey(rules[0].rule) && keys[1..] == RuleKeys(rules[1..]);
      KeptRuleKeys(rules[1..], want, n);
      KeptRuleKeys(rules[1..], want, n - 1);
      var rest := KeptRules(rules[1..], want, n);
      assert RuleKeys([rules[0]] + rest) == [keys[0]] + RuleKeys(rest);
    }
  }

  lemma {:induction false} KeptAttachKeys(services: seq<Service>, want: set<string>, n: nat)
    ensures AttachKeys(KeptServices(services, want, n)) == KeptKeys(AttachKeys(services), want, n)
  {
    hide AttachKey;
    if |services| > 0 && n > 0 {
      var keys := AttachKeys(services);
      assert keys[0] == AttachKey(services[0]) && keys[1..] == AttachKeys(services[1..]);
      KeptAttachKeys(services[1..], want, n);
      KeptAttachKeys(services[1..], want, n - 1);
      var rest := KeptServices(services[1..], want, n);
      assert AttachKeys([services[0]] + rest) == [keys[0]] + AttachKeys(rest);
    }
  }

  lemma NewRuleKeys(keys: seq<string>, desired: map<string, Rule>, next: nat)
    requires (forall k | k in keys :: k in desired) && forall k | k in desired :: RuleKey(desired[k]) == k
    ensures RuleKeys(NewRules(keys, desired, next)) == keys
  {
    hide RuleKey;
    forall i | 0 <= i < |keys| ensures RuleKeys(NewRules(keys, desired, next))[i] == keys[i] {
      assert keys[i] in keys;
    }
  }

  lemma NewServiceKeys(keys: seq<string>, desired: map<string, Service>)
    requires (forall k | k in keys :: k in desired) && forall k | k in desired :: AttachKey(desired[k]) == k
    ensures AttachKeys(NewServices(keys, desired)) == keys
  {
    forall i | 0 <= i < |keys| ensures AttachKeys(NewServices(keys, desired))[i] == keys[i] {
      assert keys[i] in keys;
      assert Normalize(Normalize(desired[keys[i]].kind)) == Normalize(desired[keys[i]].kind);
    }
  }

  /** Seen as keys, the rule writer is the generic pass. */
  lemma RulesAreReconciled(rules: seq<Listed>, desired: map<string, Rule>, n: nat, next: nat)
    requires forall k | k in desired :: RuleKey(desired[k]) == k
    ensures Reconciled(RuleKeys(rules), SortedSet(desired.Keys), {}, n) ==
            Pass(RuleKeys(RulesAfter(rules, desired, n, next)), RulesLeft(rules, desired, n))
  {
    hide RuleKey, KeptKeys, Chosen, Spare, Rest, KeptRules;
    var keys, wanted := RuleKeys(rules), SortedSet(desired.Keys);
    SortedSetIs(desired.Keys);
    assert SetOf(wanted) == desired.Keys;
    KeptRuleKeys(rules, desired.Keys, n);
    var choice := RuleChoice(rules, desired, n);
    ChosenWanted(wanted, SetOf(keys), {}, Spare(keys, desired.Keys, n));
    NewRuleKeys(choice, desired, next);
    var kept, created := KeptRules(rules, desired.Keys, n), NewRules(choice, desired, next);
    assert RuleKeys(kept + created) == RuleKeys(kept) + RuleKeys(created);
  }

  lemma ServicesAreReconciled(services: seq<Service>, desired: map<string, Service>, blocked: set<string>, n: nat)
    requires forall k | k in desired :: AttachKey(desired[k]) == k
    ensures Reconciled(AttachKeys(services), SortedSet(desired.Keys), blocked, n).keys ==
            AttachKeys(ServicesAfter(services, desired, blocked, n))
  {
    hide AttachKey, KeptKeys, Chosen, Spare, Rest, KeptServices;
    var keys, wanted := AttachKeys(services), SortedSet(desired.Keys);
    SortedSetIs(desired.Keys);
    assert SetOf(wanted) == desired.Keys;
    KeptAttachKeys(services, desired.Keys, n);
    var choice := ServiceChoice(services, desired, blocked, n);
    ChosenWanted(wanted, SetOf(keys), blocked, Spare(keys, desired.Keys, n));
    NewServiceKeys(choice, desired);
    var kept, created := KeptServices(services, desired.Keys, n), NewServices(choice, desired);
    assert AttachKeys(kept + created) == AttachKeys(kept) + AttachKeys(created);
  }

  // ---- one Update -----------------------------------------------------------------------------------

  function RuleWork(g: Group, s: Spec): nat {
    Work(RuleKeys(g.rules), RuleMap(s.rules).Keys)
  }

  function AttachWork(g: Group, s: Spec): nat {
    Work(AttachKeys(g.services), AttachMap(s.services).Keys)
  }

  /**
   What an Update still has to write: a delete per unwanted entry and a create per missing key, rules and services.
   */
  function TotalWork(g: Group, s: Spec): nat {
    RuleWork(g, s) + AttachWork(g, s)
  }

  /** The missing services from the first one another group holds on, in key order. */
  ghost function StarvedWork(c: CloudState, id: string, s: Spec, lookupFails: set<string>): nat
    requires id in c.groups
  {
    var desired := AttachMap(s.services);
    Starved(SortedSet(desired.Keys), SetOf(AttachKeys(c.groups[id].services)),
        Blocked(c.groups, id, desired, lookupFails))
  }

  /** The observed lists repeat no key. */
  predicate DistinctKeys(g: Group) {
    Distinct(RuleKeys(g.rules)) && Distinct(AttachKeys(g.services))
  }

  /** No missing service is held by another group, as far as lookups tell. */
  predicate NoConflict(c: CloudState, id: string, s: Spec, lookupFails: set<string>)
    requires id in c.groups
  {
    (AttachMap(s.services).Keys - SetOf(AttachKeys(c.groups[id].services)))
        !! Blocked(c.groups, id, AttachMap(s.services), lookupFails)
  }

  lemma NothingStarvesIff(c: CloudState, id: string, s: Spec, lookupFails: set<string>)
    requires id in c.groups
    ensures StarvedWork(c, id, s, lookupFails) == 0 <==> NoConflict(c, id, s, lookupFails)
  {
    hide AttachMap, AttachKeys, Blocked, Starved;
    var desired := AttachMap(s.services);
    SortedSetIs(desired.Keys);
    assert SetOf(SortedSet(desired.Keys)) == desired.Keys;
    StarvedIff(SortedSet(desired.Keys), SetOf(AttachKeys(c.groups[id].services)),
        Blocked(c.groups, id, desired, lookupFails));
  }

  lemma RulesShrink(g: Group, s: Spec, n: nat, next: nat)
    ensures var desired := RuleMap(s.rules);
            var after := RulesAfter(g.rules, desired, n, next);
            var have, want, now := SetOf(RuleKeys(g.rules)), desired.Keys, SetOf(RuleKeys(after));
            && (Distinct(RuleKeys(g.rules)) ==> Distinct(RuleKeys(after)))
            && Work(RuleKeys(after), want) == RuleWork(g, s) - Min(n, RuleWork(g, s))
            && RulesLeft(g.rules, desired, n) == n - Min(n, RuleWork(g, s)) && have * want <= now <= have + want
  {
    hide RuleMap, RulesAfter, RulesLeft, RuleKeys, Work, Starved, Reconciled, SortedSet, Distinct;
    var desired := RuleMap(s.rules);
    RuleMapKeys(s.rules);
    SortedSetCovers(desired.Keys);
    StarvedIff(SortedSet(desired.Keys), SetOf(RuleKeys(g.rules)), {});
    RulesAreReconciled(g.rules, desired, n, next);
    PassShrinks(RuleKeys(g.rules), SortedSet(desired.Keys), {}, n);
  }

  /** One pass over a key list: `after` is nearer to `wanted` by the budget or by all that is not starved. */
  ghost predicate Nearer(before: seq<string>, after: seq<string>, wanted: seq<string>, blocked: set<string>, n: nat) {
    var have, want, now := SetOf(before), SetOf(wanted), SetOf(after);
    var starved := Starved(wanted, have, blocked);
    && (Distinct(before) ==> Distinct(after)) && starved <= Work(before, want)
        && Starved(wanted, now, blocked) == starved
    && Work(after, want) == Work(before, want) - Min(n, Work(before, want) - starved)
    && have * want <= now <= have + want
  }

  lemma PassIsNearer(keys: seq<string>, wanted: seq<string>, blocked: set<string>, n: nat)
    requires Distinct(wanted)
    ensures Nearer(keys, Reconciled(keys, wanted, blocked, n).keys, wanted, blocked, n)
  {
    hide Starved, Reconciled, Unwanted, Distinct;
    PassShrinks(keys, wanted, blocked, n);
  }

  lemma ServicesShrink(g: Group, s: Spec, blocked: set<string>, n: nat)
    ensures var desired := AttachMap(s.services);
            && Nearer(AttachKeys(g.services), AttachKeys(ServicesAfter(g.services, desired, blocked, n)),
                SortedSet(desired.Keys), blocked, n)
            && SetOf(SortedSet(desired.Keys)) == desired.Keys
  {
    hide AttachKey, AttachMap, ServicesAfter, AttachKeys, Nearer, Reconciled, SortedSet;
    var desired := AttachMap(s.services);
    AttachMapKeys(s.services);
    SortedSetIs(desired.Keys);
    SortedSetCovers(desired.Keys);
    ServicesAreReconciled(g.services, desired, blocked, n);
    PassIsNearer(AttachKeys(g.services), SortedSet(desired.Keys), blocked, n);
  }

  /** Every wanted key stays, every added key was wanted, for rules and services alike. */
  ghost predicate OnlyTowards(before: Group, after: Group, s: Spec) {
    var r0, r1, rw := SetOf(RuleKeys(before.rules)), SetOf(RuleKeys(after.rules)), RuleMap(s.rules).Keys;
    var a0, a1, aw := SetOf(AttachKeys(before.services)), SetOf(AttachKeys(after.services)), AttachMap(s.services).Keys;
    r0 * rw <= r1 <= r0 + rw && a0 * aw <= a1 <= a0 + aw
  }

  /** The calls an Update may still make: the budget of eight, or what succeeds after the rename. */
  function Calls(g: Group, s: Spec, healthy: nat): int {
    var left := if g.name != s.name || g.description != s.description.GetOr("") then healthy - 1 else healthy;
    if left < 8 then left else 8
  }

  /**
   Whatever fails, an Update takes the calls it could make off the work, or all that no conflict starves; it only moves
   towards the spec, keeps distinct keys distinct and the starved services starved. When the rename fails, nothing
   changes.
   */
  lemma UpdateSpends(c: CloudState, id: string, s: Spec, healthy: nat, lookupFails: set<string>)
    requires id in c.groups && !Rejected(c.groups[id], s)
    ensures var d, calls := Updated(c, id, s, healthy, lookupFails), Calls(c.groups[id], s, healthy);
            var starved := StarvedWork(c, id, s, lookupFails);
            && (calls < 0 ==> d == c)
            && (calls >= 0 ==>
                  && id in d.groups && starved <= TotalWork(c.groups[id], s)
                  && TotalWork(d.groups[id], s) == TotalWork(c.groups[id], s)
                      - Min(calls, TotalWork(c.groups[id], s) - starved)
                  && StarvedWork(d, id, s, lookupFails) == starved
                  && (DistinctKeys(c.groups[id]) ==> DistinctKeys(d.groups[id]))
                  && OnlyTowards(c.groups[id], d.groups[id], s)
                  && d.groups[id].name == s.name && d.groups[id].description == s.description.GetOr("")
                  && !Rejected(d.groups[id], s))
  {
    hide Updated, RulesAfter, ServicesAfter, RulesLeft, RuleMap, AttachMap, Blocked, RuleKeys, AttachKeys,
        Duplicated, Starved, Work;
    var g, n := c.groups[id], Calls(c.groups[id], s, healthy);
    if n < 0 {
      FailedRename(c, id, s, lookupFails);
    } else {
      UpdatedGroup(c, id, s, healthy, lookupFails);
      OthersUntouched(c, id, s, healthy, lookupFails);
      RulesShrink(g, s, n, c.nextRule);
      ServicesShrink(g, s, Blocked(c.groups, id, AttachMap(s.services), lookupFails),
          RulesLeft(g.rules, RuleMap(s.rules), n));
    }
  }

  lemma FailedRename(c: CloudState, id: string, s: Spec, lookupFails: set<string>)
    requires id in c.groups && Renamed(c.groups[id], s)
    ensures Updated(c, id, s, 0, lookupFails) == c
  {
  }

  /**
   An Update whose calls succeed shrinks the work by exactly eight, or by all that no conflict starves; it only moves
   towards the spec, keeps distinct keys distinct and the starved services starved.
   */
  lemma UpdateShrinks(c: CloudState, id: string, s: Spec, healthy: nat, lookupFails: set<string>)
    requires id in c.groups && !Rejected(c.groups[id], s) && healthy > 8
    ensures var d := Updated(c, id, s, healthy, lookupFails);
            var starved := StarvedWork(c, id, s, lookupFails);
            && id in d.groups && starved <= TotalWork(c.groups[id], s)
            && TotalWork(d.groups[id], s) == TotalWork(c.groups[id], s)
                - Min(8, TotalWork(c.groups[id], s) - starved)
            && StarvedWork(d, id, s, lookupFails) == starved
            && (DistinctKeys(c.groups[id]) ==> DistinctKeys(d.groups[id])) && OnlyTowards(c.groups[id], d.groups[id], s)
            && !Renamed(d.groups[id], s) && !Rejected(d.groups[id], s)
  {
    hide Updated, StarvedWork, TotalWork, DistinctKeys, OnlyTowards, Rejected;
    UpdateSpends(c, id, s, healthy, lookupFails);
  }

  /** What an Update makes of its group once the rename went through. */
  lemma UpdatedGroup(c: CloudState, id: string, s: Spec, healthy: nat, lookupFails: set<string>)
    requires id in c.groups && !Rejected(c.groups[id], s) && Calls(c.groups[id], s, healthy) >= 0
    ensures var g, d, desired, services := c.groups[id], Updated(c, id, s, healthy, lookupFails), RuleMap(s.rules),
        AttachMap(s.services);
            var n := Calls(g, s, healthy);
            && id in d.groups && d.groups[id] == Group(s.name, s.description.GetOr(""), g.policy,
                RulesAfter(g.rules, desired, n, c.nextRule),
                 ServicesAfter(g.services, services, Blocked(c.groups, id, services, lookupFails),
                     RulesLeft(g.rules, desired, n)))
            && d.nextRule == c.nextRule + |RuleChoice(g.rules, desired, n)|
  {
    hide RulesAfter, ServicesAfter, RulesLeft, RuleChoice, RuleMap, AttachMap, Blocked;
  }

  // ---- convergence ---------------------------------------------------------------------------------

  /** `k` Updates of one group with nobody interfering. */
  ghost function Repeated(c: CloudState, id: string, s: Spec, k: nat): CloudState
    decreases k
  {
    if k == 0 then c else Repeated(Updated(c, id, s, MAX_MUTATIONS + 1, {}), id, s, k - 1)
  }

  /** From a well-formed cloud every one of these Updates is one the controller's method makes. */
  lemma {:induction false} RepeatedStaysFormed(c: CloudState, id: string, s: Spec, k: nat)
    requires WellFormed(c)
    ensures WellFormed(Repeated(c, id, s, k))
    decreases k
  {
    hide Updated, WellFormed;
    if k > 0 {
      UpdatedStaysFormed(c, id, s, MAX_MUTATIONS + 1, {});
      RepeatedStaysFormed(Updated(c, id, s, MAX_MUTATIONS + 1, {}), id, s, k - 1);
    }
  }

  /** After `k` Updates exactly `8k` writes are gone from the work, or all that no conflict starves. */
  lemma {:induction false} WorkAfter(c: CloudState, id: string, s: Spec, k: nat)
    requires id in c.groups && !Rejected(c.groups[id], s)
    ensures var d, starved := Repeated(c, id, s, k), StarvedWork(c, id, s, {});
            && id in d.groups && starved <= TotalWork(c.groups[id], s)
            && TotalWork(d.groups[id], s) == TotalWork(c.groups[id], s)
                - Min(8 * k, TotalWork(c.groups[id], s) - starved)
            && StarvedWork(d, id, s, {}) == starved
            && (DistinctKeys(c.groups[id]) ==> DistinctKeys(d.groups[id])) && !Rejected(d.groups[id], s)
            && (k > 0 ==> !Renamed(d.groups[id], s))
    decreases k
  {
    hide RuleKeys, AttachKeys, RuleMap, AttachMap, Updated, Blocked, TotalWork, DistinctKeys, Duplicated, StarvedWork;
    UpdateShrinks(c, id, s, MAX_MUTATIONS + 1, {});
    if k > 0 { WorkAfter(Updated(c, id, s, MAX_MUTATIONS + 1, {}), id, s, k - 1); }
  }

  /** Without a conflict the spec is reached after `k` Updates exactly when eight times `k` covers the work. */
  lemma ConvergesByEights(c: CloudState, id: string, s: Spec, k: nat)
    requires k > 0 && id in c.groups && !Rejected(c.groups[id], s) && NoConflict(c, id, s, {})
    ensures id in Repeated(c, id, s, k).groups
    ensures TotalWork(Repeated(c, id, s, k).groups[id], s) == 0 <==> 8 * k >= TotalWork(c.groups[id], s)
    ensures DistinctKeys(c.groups[id]) ==>
              (UpToDate(Repeated(c, id, s, k).groups[id], s) <==> 8 * k >= TotalWork(c.groups[id], s))
  {
    hide RuleKeys, AttachKeys, RuleMap, AttachMap, Updated, Blocked, TotalWork, DistinctKeys, Duplicated, UpToDate,
        StarvedWork;
    WorkAfter(c, id, s, k);
    NothingStarvesIff(c, id, s, {});
    UpToDateOnDistinctKeys(Repeated(c, id, s, k).groups[id], s);
  }

  /** Some number of Updates leaves no work exactly when no missing service is held elsewhere at the start. */
  lemma ConvergesIff(c: CloudState, id: string, s: Spec)
    requires id in c.groups && !Rejected(c.groups[id], s)
    ensures (exists k :: id in Repeated(c, id, s, k).groups && TotalWork(Repeated(c, id, s, k).groups[id], s) == 0) <==>
              NoConflict(c, id, s, {})
    ensures DistinctKeys(c.groups[id]) ==>
              ((exists k :: id in Repeated(c, id, s, k).groups && UpToDate(Repeated(c, id, s, k).groups[id], s)) <==>
                  NoConflict(c, id, s, {}))
  {
    hide RuleKeys, AttachKeys, RuleMap, AttachMap, Updated, Blocked, TotalWork, DistinctKeys, Duplicated, UpToDate,
        StarvedWork, NoConflict;
    NothingStarvesIff(c, id, s, {});
    if NoConflict(c, id, s, {}) {
      var k := TotalWork(c.groups[id], s) + 1;
      ConvergesByEights(c, id, s, k);
      assert id in Repeated(c, id, s, k).groups;
    }
    forall k: nat ensures id in Repeated(c, id, s, k).groups
                  ensures TotalWork(Repeated(c, id, s, k).groups[id], s) == 0 ==> NoConflict(c, id, s, {})
                  ensures DistinctKeys(c.groups[id]) && UpToDate(Repeated(c, id, s, k).groups[id], s) ==>
                      NoConflict(c, id, s, {})
    {
      WorkAfter(c, id, s, k);
      UpToDateOnDistinctKeys(Repeated(c, id, s, k).groups[id], s);
    }
  }

  /** The two services are missing, and the first, held by another group, sorts before the second. */
  ghost predicate HeldBack(c: CloudState, id: string, s: Spec, held: string, later: string) {
    && id in c.groups && !Rejected(c.groups[id], s)
    && held in Blocked(c.groups, id, AttachMap(s.services), {}) && held !in AttachKeys(c.groups[id].services)
    && later in AttachMap(s.services) && later !in AttachKeys(c.groups[id].services) && Leq(held, later)
  }

  lemma UpdateHoldsBack(c: CloudState, id: string, s: Spec, held: string, later: string)
    requires HeldBack(c, id, s, held, later)
    ensures HeldBack(Updated(c, id, s, MAX_MUTATIONS + 1, {}), id, s, held, later)
  {
    hide AttachKey, AttachKeys, RuleMap, AttachMap, Updated, Blocked, Duplicated, RulesAfter, ServicesAfter,
        RulesLeft, RuleChoice, Leq;
    UpdatedGroup(c, id, s, MAX_MUTATIONS + 1, {});
    OthersUntouched(c, id, s, MAX_MUTATIONS + 1, {});
    var g, desired := c.groups[id], AttachMap(s.services);
    var blocked, n := Blocked(c.groups, id, desired, {}), RulesLeft(g.rules, RuleMap(s.rules), MAX_MUTATIONS);
    LeqReflexive(held);
    AttachMapKeys(s.services);
    BlockedIsDesired(c.groups, id, desired);
    StillMissing(g.services, desired, blocked, n, held, held);
    StillMissing(g.services, desired, blocked, n, held, later);
  }

  /** Under a conflict, the held service and every missing one that sorts after it stay missing for ever. */
  lemma {:induction false} ConflictStarves(c: CloudState, id: string, s: Spec, k: nat, held: string, later: string)
    requires HeldBack(c, id, s, held, later)
    ensures HeldBack(Repeated(c, id, s, k), id, s, held, later)
    decreases k
  {
    hide HeldBack, Updated;
    if k > 0 {
      UpdateHoldsBack(c, id, s, held, later);
      ConflictStarves(Updated(c, id, s, MAX_MUTATIONS + 1, {}), id, s, k - 1, held, later);
    }
  }

  lemma BlockedIsDesired(groups: map<string, Group>, id: string, desired: map<string, Service>)
    ensures Blocked(groups, id, desired, {}) <= desired.Keys
  {
  }

  lemma StillMissing(services: seq<Service>, desired: map<string, Service>, blocked: set<string>, n: nat,
      held: string, later: string)
    requires forall k | k in desired :: AttachKey(desired[k]) == k
    requires held in blocked && held in desired && held !in AttachKeys(services)
    requires later in desired && later !in AttachKeys(services) && Leq(held, later)
    ensures later !in AttachKeys(ServicesAfter(services, desired, blocked, n))
  {
    hide AttachKeys, ServicesAfter, KeptKeys, Chosen, Rest, Spare;
    var keys, wanted := AttachKeys(services), SortedSet(desired.Keys);
    SortedSetIs(desired.Keys);
    assert SetOf(wanted) == desired.Keys;
    ServicesAreReconciled(services, desired, blocked, n);
    KeptEffect(keys, desired.Keys, n);
    NeverPastHeld(wanted, SetOf(keys), blocked, Spare(keys, desired.Keys, n), held, later);
    assert later in SetOf(KeptKeys(keys, desired.Keys, n)) ==> later in SetOf(keys);
  }

  lemma {:induction false} NeverPastHeld(wanted: seq<string>, have: set<string>, blocked: set<string>, n: nat,
      held: string, later: string)
    requires Sorted(wanted) && Distinct(wanted) && held in wanted && held in blocked && held !in have
        && Leq(held, later)
    ensures later !in Chosen(wanted, have, blocked, n)
  {
    if n > 0 && wanted[0] != held {
      assert held in wanted[1..];
      NeverPastHeld(wanted[1..], have, blocked, n, held, later);
      NeverPastHeld(wanted[1..], have, blocked, n - 1, held, later);
      if wanted[0] == later {
        var i :| 0 <= i < |wanted| && wanted[i] == held;
        LeqAntisymmetric(held, later);
      }
    }
  }

  // ---- the drift check and the writer ---------------------------------------------------------------------

  /**
   The drift check holds exactly when nothing is renamed or unwanted and, on each list, as many keys are missing as
   entries repeat.
   */
  lemma UpToDateIff(g: Group, s: Spec)
    ensures UpToDate(g, s) <==>
            && !Rejected(g, s) && !Renamed(g, s)
            && RuleWork(g, s) == Repeats(RuleKeys(g.rules)) == |RuleMap(s.rules).Keys - SetOf(RuleKeys(g.rules))|
            && AttachWork(g, s) == Repeats(AttachKeys(g.services))
                == |AttachMap(s.services).Keys - SetOf(AttachKeys(g.services))|
  {
    hide RuleKeys, AttachKeys, RuleMap, AttachMap, Unwanted, Duplicated;
    ConvergedMeans(RuleKeys(g.rules), RuleMap(s.rules).Keys);
    ConvergedMeans(AttachKeys(g.services), AttachMap(s.services).Keys);
  }

  lemma UpToDateOnDistinctKeys(g: Group, s: Spec)
    ensures DistinctKeys(g) ==> (UpToDate(g, s) <==> !Rejected(g, s) && !Renamed(g, s) && TotalWork(g, s) == 0)
  {
    hide RuleKeys, AttachKeys, RuleMap, AttachMap, Unwanted, Duplicated, UpToDate;
    UpToDateIff(g, s);
    ConvergedMeans(RuleKeys(g.rules), RuleMap(s.rules).Keys);
    ConvergedMeans(AttachKeys(g.services), AttachMap(s.services).Keys);
  }

  /**
   A working Update leaves the upstream as it is exactly when no rename is pending and all remaining work is starved.
   */
  lemma UpdateIdleIff(c: CloudState, id: string, s: Spec, healthy: nat, lookupFails: set<string>)
    requires id in c.groups && !Rejected(c.groups[id], s) && healthy > MAX_MUTATIONS
    ensures Updated(c, id, s, healthy, lookupFails) == c <==>
            !Renamed(c.groups[id], s) && TotalWork(c.groups[id], s) == StarvedWork(c, id, s, lookupFails)
  {
    hide Updated, RulesAfter, ServicesAfter, RulesLeft, RuleChoice, RuleMap, AttachMap, Blocked, RuleKeys,
        AttachKeys, Duplicated, Work, Starved;
    var g := c.groups[id];
    UpdateShrinks(c, id, s, healthy, lookupFails);
    if !Renamed(g, s) && TotalWork(g, s) == StarvedWork(c, id, s, lookupFails) {
      var blocked := Blocked(c.groups, id, AttachMap(s.services), lookupFails);
      UpdatedGroup(c, id, s, healthy, lookupFails);
      OthersUntouched(c, id, s, healthy, lookupFails);
      ServicesShrink(g, s, blocked, 0);
      RulesIdle(g, s, MAX_MUTATIONS, c.nextRule);
      RulesShrink(g, s, MAX_MUTATIONS, c.nextRule);
      ServicesIdle(g, s, blocked, MAX_MUTATIONS);
      assert Updated(c, id, s, healthy, lookupFails).groups[id] == g;
    }
  }

  lemma RulesIdle(g: Group, s: Spec, n: nat, next: nat)
    requires RuleWork(g, s) == 0 && n > 0
    ensures RulesAfter(g.rules, RuleMap(s.rules), n, next) == g.rules && RuleChoice(g.rules, RuleMap(s.rules), n) == []
  {
    hide RuleKey, RuleMap, Chosen, Spare, KeptKeys;
    var desired, keys := RuleMap(s.rules), RuleKeys(g.rules);
    var wanted := SortedSet(desired.Keys);
    SortedSetIs(desired.Keys);
    assert SetOf(wanted) == desired.Keys;
    StarvedIff(wanted, SetOf(keys), {});
    IdlePassIff(keys, wanted, {}, n);
    AllWanted(keys, desired.Keys);
    KeepsAll(g.rules, desired.Keys, n);
  }

  lemma ServicesIdle(g: Group, s: Spec, blocked: set<string>, n: nat)
    requires AttachWork(g, s) == Starved(SortedSet(AttachMap(s.services).Keys), SetOf(AttachKeys(g.services)),
        blocked) && n > 0
    ensures ServicesAfter(g.services, AttachMap(s.services), blocked, n) == g.services
  {
    hide AttachKey, AttachMap, Chosen, Spare, KeptKeys, Starved;
    var desired, keys := AttachMap(s.services), AttachKeys(g.services);
    var wanted := SortedSet(desired.Keys);
    SortedSetIs(desired.Keys);
    assert SetOf(wanted) == desired.Keys;
    StarvedIff(wanted, SetOf(keys), blocked);
    AbsentCounts(wanted, SetOf(keys));
    IdlePassIff(keys, wanted, blocked, n);
    AllWanted(keys, desired.Keys);
    KeepsAllServices(g.services, desired.Keys, n);
  }

  lemma {:induction false} KeepsAll(rules: seq<Listed>, want: set<string>, n: nat)
    requires forall k | k in RuleKeys(rules) :: k in want
    ensures KeptRules(rules, want, n) == rules
  {
    hide RuleKey;
    if |rules| > 0 {
      assert RuleKeys(rules)[0] in RuleKeys(rules);
      assert RuleKeys(rules[1..]) == RuleKeys(rules)[1..];
      KeepsAll(rules[1..], want, n);
    }
  }

  lemma {:induction false} KeepsAllServices(services: seq<Service>, want: set<string>, n: nat)
    requires forall k | k in AttachKeys(services) :: k in want
    ensures KeptServices(services, want, n) == services
  {
    hide AttachKey;
    if |services| > 0 {
      assert AttachKeys(services)[0] in AttachKeys(services);
      assert AttachKeys(services[1..]) == AttachKeys(services)[1..];
      KeepsAllServices(services[1..], want, n);
    }
  }

  /**
   Observe flags drift that no Update clears: nothing is left to write but an entry repeats, or a conflict starves the
   rest.
   */
  predicate Stuck(g: Group, s: Spec, starved: nat) {
    && !Rejected(g, s) && !Renamed(g, s) && TotalWork(g, s) == starved
    && !(Repeats(RuleKeys(g.rules)) == 0 && Repeats(AttachKeys(g.services)) == starved)
  }

  /** Observe is content while Update would write: each list repeats as many entries as it lacks keys. */
  predicate Overlooked(g: Group, s: Spec, starved: nat) {
    && !Rejected(g, s) && !Renamed(g, s) && TotalWork(g, s) > starved
    && RuleWork(g, s) == Repeats(RuleKeys(g.rules)) == |RuleMap(s.rules).Keys - SetOf(RuleKeys(g.rules))|
    && AttachWork(g, s) == Repeats(AttachKeys(g.services))
        == |AttachMap(s.services).Keys - SetOf(AttachKeys(g.services))|
  }

  /** The drift check and a working Update agree on any lists, except on the stuck and on the overlooked ones. */
  lemma DriftAgreesWithWriter(c: CloudState, id: string, s: Spec, healthy: nat, lookupFails: set<string>)
    requires id in c.groups && !Rejected(c.groups[id], s) && healthy > MAX_MUTATIONS
    ensures var g, starved := c.groups[id], StarvedWork(c, id, s, lookupFails);
            var upToDate, idle := UpToDate(g, s), Updated(c, id, s, healthy, lookupFails) == c;
            && (!upToDate && idle <==> Stuck(g, s, starved)) && (upToDate && !idle <==> Overlooked(g, s, starved))
            && (DistinctKeys(g) && NoConflict(c, id, s, lookupFails) ==> (upToDate <==> idle))
  {
    hide RuleKeys, AttachKeys, RuleMap, AttachMap, Unwanted, Duplicated, UpToDate, Updated, Blocked, Starved;
    var g := c.groups[id];
    UpToDateIff(g, s);
    UpdateIdleIff(c, id, s, healthy, lookupFails);
    UpToDateOnDistinctKeys(g, s);
    NothingStarvesIff(c, id, s, lookupFails);
    StarvedOnlyServices(c, id, s, lookupFails);
  }

  lemma StarvedOnlyServices(c: CloudState, id: string, s: Spec, lookupFails: set<string>)
    requires id in c.groups
    ensures StarvedWork(c, id, s, lookupFails) <=
            |AttachMap(s.services).Keys - SetOf(AttachKeys(c.groups[id].services))|
  {
    hide AttachMap, AttachKeys, Blocked, Starved;
    var wanted, have := SortedSet(AttachMap(s.services).Keys), SetOf(AttachKeys(c.groups[id].services));
    SortedSetIs(AttachMap(s.services).Keys);
    assert SetOf(wanted) == AttachMap(s.services).Keys;
    StarvedIff(wanted, have, Blocked(c.groups, id, AttachMap(s.services), lookupFails));
    AbsentCounts(wanted, have);
  }

  /** One rule per key of a list. */
  function FirstRules(rules: seq<Listed>): seq<Rule> {
    var k := |rules| - 1;
    if k < 0 then []
    else
      var before := FirstRules(rules[..k]);
      if RuleKey(rules[k].rule) in DeclaredKeys(before) then before else before + [rules[k].rule]
  }

  lemma {:induction false} FirstRulesCover(rules: seq<Listed>)
    ensures Distinct(DeclaredKeys(FirstRules(rules))) && SetOf(DeclaredKeys(FirstRules(rules)))
        == SetOf(RuleKeys(rules))
  {
    hide RuleKey;
    var k := |rules| - 1;
    if k >= 0 {
      var before, x := FirstRules(rules[..k]), rules[k].rule;
      FirstRulesCover(rules[..k]);
      assert RuleKeys(rules) == RuleKeys(rules[..k]) + [RuleKey(x)];
      SnocSet(RuleKeys(rules[..k]), RuleKey(x));
      if RuleKey(x) !in DeclaredKeys(before) {
        assert DeclaredKeys(before + [x]) == DeclaredKeys(before) + [RuleKey(x)];
        DistinctSnoc(DeclaredKeys(before), RuleKey(x));
        SnocSet(DeclaredKeys(before), RuleKey(x));
      } else {
        assert RuleKey(x) in SetOf(DeclaredKeys(before));
      }
    }
  }

  lemma {:induction false} AttachMapCovers(services: seq<Service>)
    ensures AttachMap(services).Keys == SetOf(AttachKeys(services))
  {
    hide AttachKey;
    var k := |services| - 1;
    if k >= 0 {
      AttachMapCovers(services[..k]);
      assert AttachKeys(services) == AttachKeys(services[..k]) + [AttachKey(services[k])];
      SnocSet(AttachKeys(services[..k]), AttachKey(services[k]));
    }
  }

  /** The declaration that asks for what the group lists, each key once. */
  function DeclarationOf(g: Group): Spec {
    Spec(g.name, Some(g.description), g.policy, FirstRules(g.rules), g.services)
  }

  lemma OwnDeclaration(g: Group)
    requires g.policy != ""
    ensures var s := DeclarationOf(g);
            && !Rejected(g, s) && !Renamed(g, s) && RuleWork(g, s) == 0 && AttachWork(g, s) == 0
            && |AttachMap(s.services).Keys - SetOf(AttachKeys(g.services))| == 0
  {
    hide RuleKeys, AttachKeys, RuleMap, AttachMap, FirstRules, DeclaredKeys, Unwanted;
    var s := DeclarationOf(g);
    FirstRulesCover(g.rules);
    RuleMapKeys(s.rules);
    AttachMapCovers(g.services);
    NoWorkIff(RuleKeys(g.rules), RuleMap(s.rules).Keys);
    NoWorkIff(AttachKeys(g.services), AttachMap(s.services).Keys);
  }

  /**
   A group that lists some key twice is stuck under the declaration of its own content: drift for ever, nothing to
   write.
   */
  lemma ListedTwiceIsStuck(c: CloudState, id: string, healthy: nat)
    requires id in c.groups && c.groups[id].policy != "" && !DistinctKeys(c.groups[id]) && healthy > MAX_MUTATIONS
    ensures var s := DeclarationOf(c.groups[id]);
            !Rejected(c.groups[id], s) && !UpToDate(c.groups[id], s) && Updated(c, id, s, healthy, {}) == c
  {
    hide RuleKeys, AttachKeys, RuleMap, AttachMap, UpToDate, Updated, Blocked, StarvedWork, DeclarationOf, Repeats,
        RuleWork, AttachWork, Rejected, Renamed;
    var g := c.groups[id];
    var s := DeclarationOf(g);
    OwnDeclaration(g);
    ConvergedMeans(RuleKeys(g.rules), {});
    ConvergedMeans(AttachKeys(g.services), {});
    StarvedOnlyServices(c, id, s, {});
    DriftAgreesWithWriter(c, id, s, healthy, {});
  }

  /** No other group holds a service this one lacks. */
  ghost predicate NothingElsewhere(c: CloudState, id: string)
    requires id in c.groups
  {
    forall h, t | h in c.groups && h != id && t in c.groups[h].services ::
        AttachKey(t) in AttachKeys(c.groups[id].services)
  }

  lemma NothingBlocked(c: CloudState, id: string, s: Spec)
    requires id in c.groups && NothingElsewhere(c, id)
    ensures NoConflict(c, id, s, {})
  {
    var desired := AttachMap(s.services);
    AttachMapKeys(s.services);
    forall k | k in Blocked(c.groups, id, desired, {}) ensures k in AttachKeys(c.groups[id].services) {
      var h :| h in c.groups && h != id && exists t | t in c.groups[h].services :: Same(desired[k], t);
      var t :| t in c.groups[h].services && Same(desired[k], t);
      assert AttachKey(t) == AttachKey(desired[k]) == k;
    }
  }

  /** The group's own declaration and one service more. */
  function Wishing(g: Group, t: Service): Spec {
    DeclarationOf(g).(services := g.services + [t])
  }

  lemma WishingMap(g: Group, t: Service)
    requires AttachKey(t) !in AttachKeys(g.services)
    ensures var m := AttachMap(Wishing(g, t).services);
            && AttachKey(t) in m && m[AttachKey(t)] == t && m.Keys - SetOf(AttachKeys(g.services)) == {AttachKey(t)}
            && Unwanted(AttachKeys(g.services), m.Keys) == 0
  {
    hide AttachKey, Unwanted;
    AttachMapCovers(g.services);
    var all := g.services + [t];
    assert all[..|all| - 1] == g.services && all[|all| - 1] == t;
    AllWanted(AttachKeys(g.services), AttachMap(all).Keys);
    assert forall k | k in AttachKeys(g.services) :: k in SetOf(AttachKeys(g.services));
  }

  /** A service held elsewhere is flagged when it is wished for, and no Update changes anything. */
  lemma HeldElsewhereIsStuck(c: CloudState, id: string, h: string, t: Service)
    requires id in c.groups && c.groups[id].policy != "" && DistinctKeys(c.groups[id])
    requires h in c.groups && h != id && t in c.groups[h].services && AttachKey(t) !in AttachKeys(c.groups[id].services)
    ensures var g, s := c.groups[id], Wishing(c.groups[id], t);
            !Rejected(g, s) && !UpToDate(g, s) && Updated(c, id, s, MAX_MUTATIONS + 1, {}) == c
  {
    hide AttachKey, AttachKeys, AttachMap, RuleKeys, RuleMap, Unwanted, UpToDate, Updated, FirstRules, DeclaredKeys,
        Starved, Duplicated;
    var g, s := c.groups[id], Wishing(c.groups[id], t);
    var m := AttachMap(s.services);
    OwnDeclaration(g);
    WishingMap(g, t);
    assert AttachKey(t) in Blocked(c.groups, id, m, {}) by {
      SameItself(t);
      assert Elsewhere(c.groups, id, t);
    }
    assert !NoConflict(c, id, s, {});
    NothingStarvesIff(c, id, s, {});
    StarvedOnlyServices(c, id, s, {});
    UpdateIdleIff(c, id, s, MAX_MUTATIONS + 1, {});
    UpToDateOnDistinctKeys(g, s);
  }

  lemma SameItself(t: Service)
    ensures Same(t, t)
  {
  }

  /**
   Check and writer agree about every acceptable declaration exactly when the group repeats no key and lacks no
   service another group holds.
   */
  lemma AgreesAlwaysIff(c: CloudState, id: string)
    requires id in c.groups && c.groups[id].policy != ""
    ensures var g := c.groups[id];
            (forall s | !Rejected(g, s) :: UpToDate(g, s) <==> Updated(c, id, s, MAX_MUTATIONS + 1, {}) == c) <==>
            DistinctKeys(g) && NothingElsewhere(c, id)
  {
    hide UpToDate, Updated, DistinctKeys, AttachKey, AttachKeys, NoConflict, Rejected;
    var g := c.groups[id];
    if !DistinctKeys(g) {
      ListedTwiceIsStuck(c, id, MAX_MUTATIONS + 1);
    } else if !NothingElsewhere(c, id) {
      var h, t :| h in c.groups && h != id && t in c.groups[h].services && AttachKey(t) !in AttachKeys(g.services);
      HeldElsewhereIsStuck(c, id, h, t);
    } else {
      forall s | !Rejected(g, s) ensures UpToDate(g, s) <==> Updated(c, id, s, MAX_MUTATIONS + 1, {}) == c {
        NothingBlocked(c, id, s);
        DriftAgreesWithWriter(c, id, s, MAX_MUTATIONS + 1, {});
      }
    }
  }

  // ---- one service, one group ---------------------------------------------------------------------------

  /** No service is attached to two groups. */
  ghost predicate Exclusive(c: CloudState) {
    forall g, h, s, t | g in c.groups && h in c.groups && g != h && s in c.groups[g].services
        && t in c.groups[h].services :: !Same(s, t)
  }

  /** An Update never changes another group. */
  lemma OthersUntouched(c: CloudState, id: string, s: Spec, healthy: nat, lookupFails: set<string>)
    ensures var d := Updated(c, id, s, healthy, lookupFails);
            && d.groups.Keys == c.groups.Keys && (forall g | g in c.groups && g != id :: d.groups[g] == c.groups[g])
    ensures Blocked(Updated(c, id, s, healthy, lookupFails).groups, id, AttachMap(s.services), lookupFails) ==
            Blocked(c.groups, id, AttachMap(s.services), lookupFails)
  {
    hide RulesAfter, ServicesAfter, RulesLeft, RuleMap, AttachMap, Elsewhere;
    var d := Updated(c, id, s, healthy, lookupFails);
    forall k | k in AttachMap(s.services)
      ensures Elsewhere(d.groups, id, AttachMap(s.services)[k]) == Elsewhere(c.groups, id, AttachMap(s.services)[k])
    {
      ElsewhereOnlyOthers(c.groups, d.groups, id, AttachMap(s.services)[k]);
    }
  }

  lemma ElsewhereOnlyOthers(a: map<string, Group>, b: map<string, Group>, id: string, s: Service)
    requires a.Keys == b.Keys && forall g | g in a && g != id :: a[g] == b[g]
    ensures Elsewhere(a, id, s) == Elsewhere(b, id, s)
  {
  }

  /** Whatever a group holds afterwards it held before, or nobody else was seen to hold it. */
  lemma ServicesWereFree(c: CloudState, id: string, desired: map<string, Service>, lookupFails: set<string>, n: nat,
      s: Service)
    requires id in c.groups && lookupFails == {}
    requires s in ServicesAfter(c.groups[id].services, desired, Blocked(c.groups, id, desired, lookupFails), n)
    ensures s in c.groups[id].services || !Elsewhere(c.groups, id, s)
  {
    var services, blocked := c.groups[id].services, Blocked(c.groups, id, desired, lookupFails);
    FirewallContents.KeptServicesWere(services, desired.Keys, n);
    if s !in services {
      var keys := ServiceChoice(services, desired, blocked, n);
      SortedSetIs(desired.Keys);
      ChosenWanted(SortedSet(desired.Keys), SetOf(AttachKeys(services)), blocked,
          Spare(AttachKeys(services), desired.Keys, n));
      var i :| 0 <= i < |keys| && NewServices(keys, desired)[i] == s;
      assert keys[i] in keys;
      assert Same(s, desired[keys[i]]);
      SameServiceSameHolder(c.groups, id, s, desired[keys[i]]);
    }
  }

  lemma SameServiceSameHolder(groups: map<string, Group>, id: string, s: Service, t: Service)
    requires Same(s, t)
    ensures Elsewhere(groups, id, s) == Elsewhere(groups, id, t)
  {
  }

  /** With lookups succeeding, an Update keeps every service in at most one group. */
  lemma UpdateKeepsExclusive(c: CloudState, id: string, s: Spec, healthy: nat)
    requires Exclusive(c)
    ensures Exclusive(Updated(c, id, s, healthy, {}))
  {
    hide RulesAfter, ServicesAfter, RulesLeft, RuleMap, AttachMap, Elsewhere, Blocked;
    var d := Updated(c, id, s, healthy, {});
    OthersUntouched(c, id, s, healthy, {});
    if d != c {
      var services := AttachMap(s.services);
      var n := RulesLeft(c.groups[id].rules, RuleMap(s.rules),
          Min(MAX_MUTATIONS, if Renamed(c.groups[id], s) then healthy - 1 else healthy));
      assert d.groups[id].services == ServicesAfter(c.groups[id].services, services,
          Blocked(c.groups, id, services, {}), n);
      forall x | x in d.groups[id].services ensures x in c.groups[id].services || !Elsewhere(c.groups, id, x) {
        ServicesWereFree(c, id, services, {}, n, x);
      }
      FreeServicesStayExclusive(c, d, id);
    }
  }

  lemma FreeServicesStayExclusive(c: CloudState, d: CloudState, id: string)
    requires Exclusive(c) && id in c.groups && d.groups.Keys == c.groups.Keys
    requires forall g | g in c.groups && g != id :: d.groups[g] == c.groups[g]
    requires forall x | x in d.groups[id].services :: x in c.groups[id].services || !Elsewhere(c.groups, id, x)
    ensures Exclusive(d)
  {
    forall g, x, y | g in d.groups && g != id && x in d.groups[id].services && y in d.groups[g].services
      ensures !Same(x, y) && !Same(y, x)
    {
      assert y in c.groups[g].services;
    }
  }

  /** Single calls of any controllers: a link preceded by its lookup, an unlink. */
  datatype Event = Linking(group: string, s: Service, answered: bool) | Unlinking(group: string, s: Service)

  predicate Known(c: CloudState, e: Event) {
    e.group in c.groups
  }

  function Called(c: CloudState, e: Event): CloudState {
    if e.group !in c.groups then c
    else
      var g := c.groups[e.group];
      match e
      case Linking(id, s, answered) =>
        if answered && Elsewhere(c.groups, id, s) then c
        else c.(groups := c.groups[id := g.(services := g.services + [Service(s.id, Normalize(s.kind))])])
      case Unlinking(id, s) =>
        c.(groups := c.groups[id := g.(services := FirewallController.DropService(g.services, s))])
  }

  lemma {:induction false} DroppedWere(services: seq<Service>, s: Service)
    ensures forall t | t in FirewallController.DropService(services, s) :: t in services
  {
    if |services| > 0 { DroppedWere(services[1..], s); }
  }

  ghost function Interleaved(c: CloudState, run: seq<Event>): CloudState
    decreases run
  {
    if |run| == 0 then c else Interleaved(Called(c, run[0]), run[1..])
  }

  lemma CallKeepsExclusive(c: CloudState, e: Event)
    requires Exclusive(c) && (e.Linking? ==> e.answered)
    ensures Exclusive(Called(c, e))
    ensures forall g | g in c.groups && g != e.group ::
              g in Called(c, e).groups && Called(c, e).groups[g] == c.groups[g]
  {
    var d := Called(c, e);
    if d != c {
      var id := e.group;
      forall x | x in d.groups[id].services ensures x in c.groups[id].services || !Elsewhere(c.groups, id, x) {
        if e.Unlinking? {
          DroppedWere(c.groups[id].services, e.s);
        } else if x !in c.groups[id].services {
          SameServiceSameHolder(c.groups, id, x, e.s);
        }
      }
      FreeServicesStayExclusive(c, d, id);
    }
  }

  /**
   Over any interleaving of any controllers' calls, with every lookup answered and taken together with its link, no
   service gets two groups.
   */
  lemma {:induction false} InterleavingKeepsExclusive(c: CloudState, run: seq<Event>)
    requires Exclusive(c) && forall e | e in run && e.Linking? :: e.answered
    ensures Exclusive(Interleaved(c, run))
    decreases run
  {
    if |run| > 0 {
      assert run[0] in run;
      CallKeepsExclusive(c, run[0]);
      InterleavingKeepsExclusive(Called(c, run[0]), run[1..]);
    }
  }

  /** A link keeps exclusivity exactly when its lookup is answered or nobody else has the service. */
  lemma LinkKeepsExclusiveIff(c: CloudState, h: string, s: Service, answered: bool)
    requires Exclusive(c) && h in c.groups
    ensures Exclusive(Called(c, Linking(h, s, answered))) <==> answered || !Elsewhere(c.groups, h, s)
  {
    var d := Called(c, Linking(h, s, answered));
    if answered || !Elsewhere(c.groups, h, s) {
      CallKeepsExclusive(c, Linking(h, s, true));
      assert d == Called(c, Linking(h, s, true));
    } else {
      var g :| g in c.groups && g != h && exists t | t in c.groups[g].services :: Same(s, t);
      var t :| t in c.groups[g].services && Same(s, t);
      var n := Service(s.id, Normalize(s.kind));
      assert n in d.groups[h].services && t in d.groups[g].services && Same(n, t);
    }
  }
}
