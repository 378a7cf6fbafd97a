/**
 Firewall groups: rule keys, desired sets, drift checks, and what the paced writers do to the listed rules and services.
 */
module Firewall {
  import opened Wrappers
  import opened Text
  import opened SetReconcile

  const MAX_MUTATIONS := 8

  datatype Rule = Rule(direction: string, protocol: string, port: Option<string>, cidr: string,
      description: Option<string>)
  datatype Listed = Listed(id: nat, rule: Rule)
  datatype Service = Service(id: string, kind: string)
  datatype Group = Group(name: string, description: string, policy: string, rules: seq<Listed>, services: seq<Service>)
  datatype Spec = Spec(name: string, description: Option<string>, policy: string, rules: seq<Rule>,
      services: seq<Service>)

  /** Every group upstream, and the id the next created rule gets. */
  datatype CloudState = CloudState(groups: map<string, Group>, nextRule: nat)

  // ---- identities -----------------------------------------------------------------------

  predicate IsIcmp(r: Rule) {
    ToLower(r.protocol) == "icmp"
  }

  function PortText(r: Rule): string {
    if IsIcmp(r) then "" else r.port.GetOr("")
  }

  function RuleKey(r: Rule): string {
    ToLower(r.direction) + ['|'] + (ToLower(r.protocol) + ['|'] + (PortText(r) + ['|'] + r.cidr))
  }

  /** What is created for a declared rule: icmp carries no port. */
  function Payload(r: Rule): Rule {
    if IsIcmp(r) then r.(port := None) else r
  }

  function Normalize(kind: string): string {
    if kind == "" then "balancer" else kind
  }

  function AttachKey(s: Service): string {
    Normalize(s.kind) + ['|'] + s.id
  }

  /** The upstream's identity of a service. */
  predicate Same(s: Service, t: Service) {
    s.id == t.id && Normalize(s.kind) == Normalize(t.kind)
  }

  function RuleKeys(rules: seq<Listed>): seq<string> {
    seq(|rules|, i requires 0 <= i < |rules| => RuleKey(rules[i].rule))
  }

  function AttachKeys(services: seq<Service>): seq<string> {
    seq(|services|, i requires 0 <= i < |services| => AttachKey(services[i]))
  }

  // ---- what is declared --------------------------------------------------------------------

  /** Key to payload, the first of equal keys. */
  function RuleMap(rules: seq<Rule>): map<string, Rule> {
    var k := |rules| - 1;
    if k < 0 then map[]
    else
      var before := RuleMap(rules[..k]);
      if RuleKey(rules[k]) in before then before else before[RuleKey(rules[k]) := Payload(rules[k])]
  }

  function DeclaredKeys(rules: seq<Rule>): seq<string> {
    seq(|rules|, i requires 0 <= i < |rules| => RuleKey(rules[i]))
  }

  predicate Duplicated(rules: seq<Rule>) {
    !Distinct(DeclaredKeys(rules))
  }

  lemma DeclaredStep(rules: seq<Rule>, i: nat)
    requires i < |rules|
    ensures DeclaredKeys(rules[..i + 1]) == DeclaredKeys(rules[..i]) + [RuleKey(rules[i])]
  {
  }

  lemma SnocSet(keys: seq<string>, x: string)
    ensures SetOf(keys + [x]) == SetOf(keys) + {x}
  {
  }

  lemma DistinctSnoc(keys: seq<string>, x: string)
    ensures Distinct(keys + [x]) <==> Distinct(keys) && x !in keys
  {
    var l := keys + [x];
    assert l[|keys|] == x && forall i | 0 <= i < |keys| :: l[i] == keys[i];
  }

  lemma {:induction false} RuleMapKeys(rules: seq<Rule>)
    ensures RuleMap(rules).Keys == SetOf(DeclaredKeys(rules))
    ensures forall k | k in RuleMap(rules) :: RuleKey(RuleMap(rules)[k]) == k
  {
    hide RuleKey, Payload;
    var k := |rules| - 1;
    if k >= 0 {
      RuleMapKeys(rules[..k]);
      DeclaredStep(rules, k);
      assert rules[..k + 1] == rules;
      PayloadKey(rules[k]);
      SnocSet(DeclaredKeys(rules[..k]), RuleKey(rules[k]));
    }
  }

  lemma PayloadKey(r: Rule)
    ensures RuleKey(Payload(r)) == RuleKey(r)
  {
  }

  method DesiredRuleSet(rules: seq<Rule>) returns (out: map<string, Rule>, dup: bool)
    ensures out == RuleMap(rules) && dup == Duplicated(rules)
  {
    hide RuleKey;
    out, dup := map[], false;
    for i := 0 to |rules|
      invariant out == RuleMap(rules[..i]) && dup == Duplicated(rules[..i])
    {
      RuleMapKeys(rules[..i]);
      DeclaredStep(rules, i);
      DistinctSnoc(DeclaredKeys(rules[..i]), RuleKey(rules[i]));
      assert rules[..i + 1][..i] == rules[..i];
      var r := rules[i];
      var port := if ToLower(r.protocol) == "icmp" then None else r.port;
      var key := RuleKey(r.(port := port));
      assert r.(port := port) == Payload(r);
      PayloadKey(r);
      if key in out {
        dup := true;
        continue;
      }
      out := out[key := r.(port := port)];
    }
    assert rules[..|rules|] == rules;
  }

  /** Key to attachment, the last of equal keys. */
  function AttachMap(services: seq<Service>): map<string, Service> {
    var k := |services| - 1;
    if k < 0 then map[] else AttachMap(services[..k])[AttachKey(services[k]) := services[k]]
  }

  lemma {:induction false} AttachMapKeys(services: seq<Service>)
    ensures forall k | k in AttachMap(services) :: AttachKey(AttachMap(services)[k]) == k
  {
    if |services| > 0 { AttachMapKeys(services[..|services| - 1]); }
  }

  method DesiredAttachSet(services: seq<Service>) returns (out: map<string, Service>)
    ensures out == AttachMap(services)
  {
    out := map[];
    for i := 0 to |services|
      invariant out == AttachMap(services[..i])
    {
      assert services[..i + 1][..i] == services[..i];
      out := out[AttachKey(services[i]) := services[i]];
    }
    assert services[..|services|] == services;
  }

  // ---- drift -----------------------------------------------------------------------------------

  method RulesConverged(desired: map<string, Rule>, observed: seq<Listed>) returns (r: bool)
    ensures r == Converged(RuleKeys(observed), desired.Keys)
  {
    if |desired.Keys| != |observed| { return false; }
    for i := 0 to |observed|
      invariant forall j | 0 <= j < i :: RuleKeys(observed)[j] in desired.Keys
    {
      if RuleKey(observed[i].rule) !in desired {
        assert RuleKeys(observed)[i] !in desired.Keys;
        return false;
      }
    }
    return true;
  }

  method AttachConverged(desired: map<string, Service>, observed: seq<Service>) returns (r: bool)
    ensures r == Converged(AttachKeys(observed), desired.Keys)
  {
    if |desired.Keys| != |observed| { return false; }
    for i := 0 to |observed|
      invariant forall j | 0 <= j < i :: AttachKeys(observed)[j] in desired.Keys
    {
      if AttachKey(observed[i]) !in desired {
        assert AttachKeys(observed)[i] !in desired.Keys;
        return false;
      }
    }
    return true;
  }

  function EffectivePolicy(policy: string): string {
    if policy == "" then "DROP" else policy
  }

  predicate UpToDate(g: Group, s: Spec) {
    && !Duplicated(s.rules) && g.name == s.name && g.description == s.description.GetOr("")
    && g.policy == EffectivePolicy(s.policy)
    && Converged(RuleKeys(g.rules), RuleMap(s.rules).Keys)
    && Converged(AttachKeys(g.services), AttachMap(s.services).Keys)
  }

  // ---- what the writers do to the lists ----------------------------------------------------------

  /** The rules left after deleting unwanted ones front to back, at most `n`. */
  function KeptRules(rules: seq<Listed>, want: set<string>, n: nat): seq<Listed> {
    if |rules| == 0 || n == 0 then rules
    else if RuleKey(rules[0].rule) in want then [rules[0]] + KeptRules(rules[1..], want, n)
    else KeptRules(rules[1..], want, n - 1)
  }

  function KeptServices(services: seq<Service>, want: set<string>, n: nat): seq<Service> {
    if |services| == 0 || n == 0 then services
    else if AttachKey(services[0]) in want then [services[0]] + KeptServices(services[1..], want, n)
    else KeptServices(services[1..], want, n - 1)
  }

  ghost function RuleChoice(rules: seq<Listed>, desired: map<string, Rule>, n: nat): seq<string> {
    Chosen(SortedSet(desired.Keys), SetOf(RuleKeys(rules)), {}, Spare(RuleKeys(rules), desired.Keys, n))
  }

  ghost function RulesLeft(rules: seq<Listed>, desired: map<string, Rule>, n: nat): nat {
    Rest(SortedSet(desired.Keys), SetOf(RuleKeys(rules)), {}, Spare(RuleKeys(rules), desired.Keys, n))
  }

  /** Rules created for these keys, numbered from `next`. */
  ghost function NewRules(keys: seq<string>, desired: map<string, Rule>, next: nat): seq<Listed> {
    seq(|keys|, i requires 0 <= i < |keys| => Listed(next + i, if keys[i] in desired then desired[keys[i]]
        else Rule("", "", None, "", None)))
  }

  ghost function RulesAfter(rules: seq<Listed>, desired: map<string, Rule>, n: nat, next: nat): seq<Listed> {
    KeptRules(rules, desired.Keys, n) + NewRules(RuleChoice(rules, desired, n), desired, next)
  }

  /** Another group already has the service. */
  predicate Elsewhere(groups: map<string, Group>, id: string, s: Service) {
    exists g | g in groups && g != id :: exists t | t in groups[g].services :: Same(s, t)
  }

  /** The desired services another group has, where the lookup answers. */
  function Blocked(groups: map<string, Group>, id: string, desired: map<string, Service>,
      lookupFails: set<string>): set<string> {
    set k | k in desired && k !in lookupFails && Elsewhere(groups, id, desired[k])
  }

  ghost function ServiceChoice(services: seq<Service>, desired: map<string, Service>, blocked: set<string>,
      n: nat): seq<string> {
    Chosen(SortedSet(desired.Keys), SetOf(AttachKeys(services)), blocked, Spare(AttachKeys(services), desired.Keys, n))
  }

  ghost function NewServices(keys: seq<string>, desired: map<string, Service>): seq<Service> {
    seq(|keys|, i requires 0 <= i < |keys| => if keys[i] in desired
        then Service(desired[keys[i]].id, Normalize(desired[keys[i]].kind)) else Service("", ""))
  }

  ghost function ServicesAfter(services: seq<Service>, desired: map<string, Service>, blocked: set<string>,
      n: nat): seq<Service> {
    KeptServices(services, desired.Keys, n) + NewServices(ServiceChoice(services, desired, blocked, n), desired)
  }

  predicate Renamed(g: Group, s: Spec) {
    g.name != s.name || g.description != s.description.GetOr("")
  }

  predicate Rejected(g: Group, s: Spec) {
    Duplicated(s.rules) || g.policy != EffectivePolicy(s.policy)
  }

  /** One Update of the group `id`: `healthy` write calls succeed before the first failure. */
  ghost function Updated(c: CloudState, id: string, s: Spec, healthy: nat, lookupFails: set<string>): CloudState {
    if id !in c.groups || Rejected(c.groups[id], s) || (Renamed(c.groups[id], s) && healthy == 0) then c
    else
      var g := c.groups[id];
      var n := Min(MAX_MUTATIONS, if Renamed(g, s) then healthy - 1 else healthy);
      var desired, services := RuleMap(s.rules), AttachMap(s.services);
      CloudState(c.groups[id := Group(s.name, s.description.GetOr(""), g.policy,
          RulesAfter(g.rules, desired, n, c.nextRule),
                   ServicesAfter(g.services, services, Blocked(c.groups, id, services, lookupFails),
                       RulesLeft(g.rules, desired, n)))],
                 c.nextRule + |RuleChoice(g.rules, desired, n)|)
  }

  // ---- well-formed upstream state ------------------------------------------------------------------

  /** In every group rule ids are unique and below the next one. */
  predicate WellFormed(c: CloudState) {
    forall g | g in c.groups :: RulesFormed(c.groups[g].rules, c.nextRule)
  }

  predicate RulesFormed(rules: seq<Listed>, nextRule: nat) {
    && (forall i | 0 <= i < |rules| :: rules[i].id < nextRule)
    && (forall i, j | 0 <= i < j < |rules| :: rules[i].id != rules[j].id)
  }

  lemma {:induction false} KeptStayFormed(rules: seq<Listed>, want: set<string>, n: nat, next: nat)
    requires RulesFormed(rules, next)
    ensures RulesFormed(KeptRules(rules, want, n), next)
    ensures forall r | r in KeptRules(rules, want, n) :: r in rules
  {
    hide RuleKey;
    if |rules| > 0 && n > 0 {
      if RuleKey(rules[0].rule) in want {
        var kept := KeptRules(rules[1..], want, n);
        KeptStayFormed(rules[1..], want, n, next);
        forall j | 0 <= j < |kept| ensures kept[j].id != rules[0].id {
          assert kept[j] in rules[1..];
        }
      } else {
        KeptStayFormed(rules[1..], want, n - 1, next);
      }
    }
  }

  /** Whatever succeeds, an Update leaves a well-formed cloud, so the next Update starts from one. */
  lemma UpdatedStaysFormed(c: CloudState, id: string, s: Spec, healthy: nat, lookupFails: set<string>)
    requires WellFormed(c)
    ensures WellFormed(Updated(c, id, s, healthy, lookupFails))
  {
    hide KeptRules, RuleChoice, RuleMap, AttachMap, ServicesAfter, RulesLeft, Blocked, Duplicated;
    if id in c.groups {
      var g, desired := c.groups[id], RuleMap(s.rules);
      forall n: nat
        ensures RulesFormed(RulesAfter(g.rules, desired, n, c.nextRule), c.nextRule + |RuleChoice(g.rules, desired, n)|)
      {
        KeptStayFormed(g.rules, desired.Keys, n, c.nextRule);
      }
    }
  }
}
