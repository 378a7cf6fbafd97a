/** What a firewall Update creates and refuses. */
module FirewallContents {
  import opened Wrappers
  import opened Text
  import opened SetReconcile
  import opened Firewall

  /** The rule created for a declared one: the same, without a port if it is icmp in any case. */
  function AsCreated(r: Rule): Rule {
    Rule(r.direction, r.protocol, if ToLower(r.protocol) == "icmp" then None else r.port, r.cidr, r.description)
  }

  /** The service linked for a declared one: an empty kind is a balancer. */
  function AsLinked(s: Service): Service {
    Service(s.id, if s.kind == "" then "balancer" else s.kind)
  }

  lemma {:induction false} RuleMapValues(rules: seq<Rule>)
    ensures forall k | k in RuleMap(rules) :: exists r :: r in rules && RuleMap(rules)[k] == AsCreated(r)
  {
    hide RuleKey;
    if |rules| > 0 {
      var before, last := rules[..|rules| - 1], rules[|rules| - 1];
      RuleMapValues(before);
      forall k | k in RuleMap(rules) ensures exists r :: r in rules && RuleMap(rules)[k] == AsCreated(r) {
        if k in RuleMap(before) {
          var r :| r in before && RuleMap(before)[k] == AsCreated(r);
          assert r in rules;
        } else {
          assert last in rules && Payload(last) == AsCreated(last);
        }
      }
    }
  }

  lemma {:induction false} AttachMapValues(services: seq<Service>)
    ensures forall k | k in AttachMap(services) :: AttachMap(services)[k] in services
  {
    if |services| > 0 { AttachMapValues(services[..|services| - 1]); }
  }

  lemma {:induction false} KeptWere(rules: seq<Listed>, want: set<string>, n: nat)
    ensures forall l | l in KeptRules(rules, want, n) :: l in rules
  {
    hide RuleKey;
    if |rules| > 0 && n > 0 {
      KeptWere(rules[1..], want, n);
      KeptWere(rules[1..], want, n - 1);
    }
  }

  lemma {:induction false} KeptServicesWere(services: seq<Service>, want: set<string>, n: nat)
    ensures forall t | t in KeptServices(services, want, n) :: t in services
  {
    hide AttachKey;
    if |services| > 0 && n > 0 {
      KeptServicesWere(services[1..], want, n);
      KeptServicesWere(services[1..], want, n - 1);
    }
  }

  /** The rules whose key is wanted, in order. */
  function Wanted(rules: seq<Listed>, want: set<string>): seq<Listed> {
    if |rules| == 0 then []
    else (if RuleKey(rules[0].rule) in want then [rules[0]] else []) + Wanted(rules[1..], want)
  }

  function WantedServices(services: seq<Service>, want: set<string>): seq<Service> {
    if |services| == 0 then []
    else (if AttachKey(services[0]) in want then [services[0]] else []) + WantedServices(services[1..], want)
  }

  /** Deletes go front to back: up to some place every unwanted rule is gone, at most `n`; behind it nothing is. */
  lemma {:induction false} DeletesFromTheFront(rules: seq<Listed>, want: set<string>, n: nat) returns (m: nat)
    ensures m <= |rules| && KeptRules(rules, want, n) == Wanted(rules[..m], want) + rules[m..]
    ensures var gone := m - |Wanted(rules[..m], want)|; 0 <= gone <= n && (m < |rules| ==> gone == n)
  {
    hide RuleKey;
    if |rules| == 0 || n == 0 {
      m := 0;
    } else {
      var k := DeletesFromTheFront(rules[1..], want, if RuleKey(rules[0].rule) in want then n else n - 1);
      m := k + 1;
      assert rules[..m][1..] == rules[1..][..k] && rules[m..] == rules[1..][k..];
    }
  }

  lemma {:induction false} UnlinksFromTheFront(services: seq<Service>, want: set<string>, n: nat) returns (m: nat)
    ensures m <= |services| && KeptServices(services, want, n) == WantedServices(services[..m], want) + services[m..]
    ensures var gone := m - |WantedServices(services[..m], want)|; 0 <= gone <= n && (m < |services| ==> gone == n)
  {
    hide AttachKey;
    if |services| == 0 || n == 0 {
      m := 0;
    } else {
      var k := UnlinksFromTheFront(services[1..], want, if AttachKey(services[0]) in want then n else n - 1);
      m := k + 1;
      assert services[..m][1..] == services[1..][..k] && services[m..] == services[1..][k..];
    }
  }

  lemma RulesCreated(rules: seq<Listed>, declared: seq<Rule>, n: nat, next: nat)
    ensures forall l | l in RulesAfter(rules, RuleMap(declared), n, next) && l !in rules ::
              l.id >= next && exists r :: r in declared && l.rule == AsCreated(r)
  {
    hide RuleKeys, RuleMap, Chosen, KeptRules;
    var desired := RuleMap(declared);
    RuleMapValues(declared);
    KeptWere(rules, desired.Keys, n);
    SortedSetIs(desired.Keys);
    ChosenWanted(SortedSet(desired.Keys), SetOf(RuleKeys(rules)), {}, Spare(RuleKeys(rules), desired.Keys, n));
    forall l | l in RulesAfter(rules, desired, n, next) && l !in rules
      ensures l.id >= next && exists r :: r in declared && l.rule == AsCreated(r)
    {
      var keys := RuleChoice(rules, desired, n);
      var made := NewRules(keys, desired, next);
      assert l in made;
      var i :| 0 <= i < |keys| && made[i] == l;
      assert keys[i] in SortedSet(desired.Keys);
    }
  }

  lemma ServicesLinked(services: seq<Service>, declared: seq<Service>, blocked: set<string>, n: nat)
    ensures forall t | t in ServicesAfter(services, AttachMap(declared), blocked, n) && t !in services ::
              exists x :: x in declared && t == AsLinked(x)
  {
    hide AttachKeys, AttachMap, Chosen, KeptServices;
    var desired := AttachMap(declared);
    AttachMapValues(declared);
    KeptServicesWere(services, desired.Keys, n);
    SortedSetIs(desired.Keys);
    ChosenWanted(SortedSet(desired.Keys), SetOf(AttachKeys(services)), blocked,
        Spare(AttachKeys(services), desired.Keys, n));
    forall t | t in ServicesAfter(services, desired, blocked, n) && t !in services
      ensures exists x :: x in declared && t == AsLinked(x)
    {
      var keys := ServiceChoice(services, desired, blocked, n);
      var made := NewServices(keys, desired);
      assert t in made;
      var i :| 0 <= i < |keys| && made[i] == t;
      assert keys[i] in SortedSet(desired.Keys);
      assert t == AsLinked(desired[keys[i]]);
    }
  }

  /**
   Whatever succeeds, an Update creates only declared rules and links only declared services, in their declared form; a
   policy other than the declared one, DROP when none is, stops it, and it never changes the policy.
   */
  lemma CreatedAsDeclared(c: CloudState, id: string, s: Spec, healthy: nat, lookupFails: set<string>)
    requires id in c.groups
    ensures var d, g := Updated(c, id, s, healthy, lookupFails), c.groups[id];
            && id in d.groups && d.groups[id].policy == g.policy
            && (g.policy != (if s.policy == "" then "DROP" else s.policy) ==> d == c)
            && (d.groups[id] != g ==>
                  && d.groups[id].name == s.name
                  && d.groups[id].description == (if s.description.Some? then s.description.value else ""))
            && (forall l | l in d.groups[id].rules && l !in g.rules ::
                  l.id >= c.nextRule && exists r :: r in s.rules && l.rule == AsCreated(r))
            && (forall t | t in d.groups[id].services && t !in g.services ::
                  exists x :: x in s.services && t == AsLinked(x))
  {
    hide RulesAfter, ServicesAfter, RuleMap, AttachMap, Duplicated, RulesLeft, Blocked;
    var g := c.groups[id];
    forall n: nat
      ensures forall l | l in RulesAfter(g.rules, RuleMap(s.rules), n, c.nextRule) && l !in g.rules ::
                l.id >= c.nextRule && exists r :: r in s.rules && l.rule == AsCreated(r)
    {
      RulesCreated(g.rules, s.rules, n, c.nextRule);
    }
    forall n: nat, blocked
      ensures forall t | t in ServicesAfter(g.services, AttachMap(s.services), blocked, n) && t !in g.services ::
                exists x :: x in s.services && t == AsLinked(x)
    {
      ServicesLinked(g.services, s.services, blocked, n);
    }
  }

  // ---- attachment identity ---------------------------------------------------------------------

  function Kind(s: Service): string {
    if s.kind == "" then "balancer" else s.kind
  }

  lemma KeyText(s: Service)
    ensures AttachKey(s) == Kind(s) + "|" + s.id && |Kind(s)| > 0
  {
  }

  lemma CutOnce(a: string, x: string, b: string, y: string)
    requires a + "|" + x == b + "|" + y && |a| > 0 && |b| > 0 && Free(x, '|') && Free(a[1..], '|')
    ensures a == b && x == y
  {
    var all := a + "|" + x;
    assert all[|b|] == '|';
    assert |a| == |b|;
    assert a == all[..|a|] == b;
    assert x == all[|a| + 1..] == y;
  }

  /**
   A service is told from every other one by its key exactly when its id holds no pipe and its kind none behind the
   first place; an empty kind and a balancer are the same.
   */
  lemma KeysIdentifyServices(s: Service)
    ensures (forall t: Service :: AttachKey(s) == AttachKey(t) <==> s.id == t.id && Kind(s) == Kind(t)) <==>
            Free(s.id, '|') && Free(Kind(s)[1..], '|')
  {
    hide AttachKey, Kind;
    forall t: Service ensures AttachKey(t) == Kind(t) + "|" + t.id && |Kind(t)| > 0 { KeyText(t); }
    var k := Kind(s);
    if Free(s.id, '|') && Free(k[1..], '|') {
      forall t: Service | AttachKey(s) == AttachKey(t) ensures s.id == t.id && k == Kind(t) {
        CutOnce(k, s.id, Kind(t), t.id);
      }
    } else if !Free(s.id, '|') {
      var j :| 0 <= j < |s.id| && s.id[j] == '|';
      var t := Service(s.id[j + 1..], k + "|" + s.id[..j]);
      assert s.id == s.id[..j] + "|" + s.id[j + 1..];
      SameText(s, t, k, s.id[..j]);
    } else {
      var j :| 0 <= j < |k[1..]| && k[1..][j] == '|';
      var t := Service(k[j + 2..] + "|" + s.id, k[..j + 1]);
      assert k == k[..j + 1] + "|" + k[j + 2..];
      OwnKind(t);
      assert AttachKey(t) == k[..j + 1] + "|" + k[j + 2..] + "|" + s.id == AttachKey(s);
    }
  }

  lemma OwnKind(t: Service)
    requires t.kind != ""
    ensures Kind(t) == t.kind
  {
  }

  lemma SameText(s: Service, t: Service, k: string, a: string)
    requires k == Kind(s) && s.id == a + "|" + t.id && t.kind == k + "|" + a
    ensures AttachKey(s) == AttachKey(t) && s.id != t.id
  {
    KeyText(s);
    KeyText(t);
    assert AttachKey(t) == k + "|" + a + "|" + t.id;
  }

  /** An accepted declaration: one rule per key, and the policy the group has. */
  lemma RejectedIff(g: Group, s: Spec)
    ensures Rejected(g, s) <==>
            || (exists i, j :: 0 <= i < j < |s.rules| && RuleKey(s.rules[i]) == RuleKey(s.rules[j]))
            || g.policy != (if s.policy == "" then "DROP" else s.policy)
  {
    hide RuleKey;
    var keys := DeclaredKeys(s.rules);
    if Duplicated(s.rules) {
      var i, j :| 0 <= i < j < |keys| && keys[i] == keys[j];
      assert RuleKey(s.rules[i]) == RuleKey(s.rules[j]);
    }
    if i, j :| 0 <= i < j < |s.rules| && RuleKey(s.rules[i]) == RuleKey(s.rules[j]) {
      assert keys[i] == keys[j];
    }
  }
}
