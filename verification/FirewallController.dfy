/**
 The paced writers over a shared upstream, loop by loop and call by call, proved to do to it exactly what the
 specification functions say.
 */
module FirewallController {
  import opened Text
  import opened SetReconcile
  import opened Firewall

  // ---- upstream operations on lists ---------------------------------------------------------

  function DropRule(rules: seq<Listed>, id: nat): seq<Listed> {
    if |rules| == 0 then [] else (if rules[0].id == id then [] else [rules[0]]) + DropRule(rules[1..], id)
  }

  /** One unlink takes one listed entry of the service. */
  function DropService(services: seq<Service>, s: Service): seq<Service> {
    if |services| == 0 then []
    else if Same(services[0], s) then services[1..]
    else [services[0]] + DropService(services[1..], s)
  }

  predicate DistinctIds(rules: seq<Listed>) {
    forall i, j | 0 <= i < j < |rules| :: rules[i].id != rules[j].id
  }

  lemma {:induction false} DropNothing(rules: seq<Listed>, id: nat)
    requires forall i | 0 <= i < |rules| :: rules[i].id != id
    ensures DropRule(rules, id) == rules
  {
    if |rules| > 0 { DropNothing(rules[1..], id); }
  }

  lemma {:induction false} DropRuleAt(pre: seq<Listed>, x: Listed, rest: seq<Listed>)
    requires DistinctIds(pre + [x] + rest)
    ensures DropRule(pre + [x] + rest, x.id) == pre + rest && DistinctIds(pre + rest)
  {
    var whole := pre + [x] + rest;
    if |pre| == 0 {
      assert whole == [x] + rest && whole[1..] == rest;
      assert forall j | 0 <= j < |rest| :: whole[j + 1] == rest[j];
      DropNothing(rest, x.id);
    } else {
      assert whole[1..] == pre[1..] + [x] + rest;
      DropRuleAt(pre[1..], x, rest);
      assert whole[0] == pre[0] && whole[|pre|] == x;
      assert pre + rest == [pre[0]] + (pre[1..] + rest);
      DistinctDrop(pre, x, rest);
    }
  }

  lemma DistinctDrop(pre: seq<Listed>, x: Listed, rest: seq<Listed>)
    requires DistinctIds(pre + [x] + rest)
    ensures DistinctIds(pre + rest)
  {
    var whole, less := pre + [x] + rest, pre + rest;
    forall i, j | 0 <= i < j < |less| ensures less[i].id != less[j].id {
      assert less[i] == whole[if i < |pre| then i else i + 1];
      assert less[j] == whole[if j < |pre| then j else j + 1];
    }
  }

  lemma {:induction false} DropServiceAt(pre: seq<Service>, x: Service, rest: seq<Service>)
    requires forall i | 0 <= i < |pre| :: !Same(pre[i], x)
    ensures DropService(pre + [x] + rest, x) == pre + rest
  {
    var whole := pre + [x] + rest;
    if |pre| == 0 {
      assert whole == [x] + rest && whole[1..] == rest;
      assert pre + rest == rest;
    } else {
      assert whole[1..] == pre[1..] + [x] + rest && whole[0] == pre[0];
      DropServiceAt(pre[1..], x, rest);
      assert pre + rest == [pre[0]] + (pre[1..] + rest);
    }
  }

  /** The groups with one group's rules, or services, replaced. */
  function WithRules(groups: map<string, Group>, id: string, rules: seq<Listed>): map<string, Group>
    requires id in groups
  {
    groups[id := groups[id].(rules := rules)]
  }

  function WithServices(groups: map<string, Group>, id: string, services: seq<Service>): map<string, Group>
    requires id in groups
  {
    groups[id := groups[id].(services := services)]
  }

  lemma Replacing(groups: map<string, Group>, id: string)
    requires id in groups
    ensures WithRules(groups, id, groups[id].rules) == groups && WithServices(groups, id, groups[id].services) == groups
  {
  }

  lemma RulesTwice(groups: map<string, Group>, id: string, a: seq<Listed>, b: seq<Listed>)
    requires id in groups
    ensures WithRules(WithRules(groups, id, a), id, b) == WithRules(groups, id, b)
    ensures WithRules(groups, id, a)[id].rules == a
  {
  }

  lemma ServicesTwice(groups: map<string, Group>, id: string, a: seq<Service>, b: seq<Service>)
    requires id in groups
    ensures WithServices(WithServices(groups, id, a), id, b) == WithServices(groups, id, b)
    ensures WithServices(groups, id, a)[id].services == a
  {
  }

  // ---- the shared upstream --------------------------------------------------------------------

  class Cloud {
    var groups: map<string, Group>
    var nextRule: nat

    function State(): CloudState
      reads this
    {
      CloudState(groups, nextRule)
    }

    constructor ()
      ensures State() == CloudState(map[], 0)
    {
      groups, nextRule := map[], 0;
    }

    method DeleteRule(g: string, id: nat)
      requires g in groups
      modifies `groups
      ensures groups == WithRules(old(groups), g, DropRule(old(groups[g]).rules, id))
    {
      groups := groups[g := groups[g].(rules := DropRule(groups[g].rules, id))];
    }

    method CreateRule(g: string, r: Rule)
      requires g in groups
      modifies this
      ensures groups == WithRules(old(groups), g, old(groups[g]).rules + [Listed(old(nextRule), r)])
      ensures nextRule == old(nextRule) + 1
    {
      groups := groups[g := groups[g].(rules := groups[g].rules + [Listed(nextRule, r)])];
      nextRule := nextRule + 1;
    }

    method Unlink(g: string, s: Service)
      requires g in groups
      modifies `groups
      ensures groups == WithServices(old(groups), g, DropService(old(groups[g]).services, s))
    {
      groups := groups[g := groups[g].(services := DropService(groups[g].services, s))];
    }

    method Link(g: string, s: Service)
      requires g in groups
      modifies `groups
      ensures groups == WithServices(old(groups), g, old(groups[g]).services + [s])
    {
      groups := groups[g := groups[g].(services := groups[g].services + [s])];
    }

    method Rename(g: string, name: string, description: string)
      requires g in groups
      modifies `groups
      ensures groups == old(groups)[g := old(groups[g]).(name := name, description := description)]
    {
      groups := groups[g := groups[g].(name := name, description := description)];
    }
  }

  // ---- loop steps -------------------------------------------------------------------------------

  /** After `i` listed rules: what is kept so far, what the group holds, and what `n` more deletions will do. */
  ghost predicate Deleting(observed: seq<Listed>, want: set<string>, n0: nat, pre: seq<Listed>, cur: seq<Listed>,
      i: nat, n: nat)
    requires i <= |observed|
  {
    && cur == pre + observed[i..] && DistinctIds(cur)
    && KeptRules(observed, want, n0) == pre + KeptRules(observed[i..], want, n)
    && Spare(RuleKeys(observed), want, n0) == Spare(RuleKeys(observed[i..]), want, n)
  }

  lemma DeletingStarts(observed: seq<Listed>, want: set<string>, n: nat)
    requires DistinctIds(observed)
    ensures Deleting(observed, want, n, [], observed, 0, n)
  {
    assert observed[0..] == observed && [] + observed == observed;
    assert [] + KeptRules(observed, want, n) == KeptRules(observed, want, n);
  }

  lemma TailKeys(rules: seq<Listed>, i: nat)
    requires i < |rules|
    ensures rules[i..] == [rules[i]] + rules[i + 1..]
    ensures RuleKeys(rules[i..]) == [RuleKey(rules[i].rule)] + RuleKeys(rules[i + 1..])
    ensures RuleKeys(rules[i..])[1..] == RuleKeys(rules[i + 1..])
  {
  }

  lemma DeletingKeeps(observed: seq<Listed>, want: set<string>, n0: nat, pre: seq<Listed>, cur: seq<Listed>, i: nat,
      n: nat)
    requires i < |observed| && Deleting(observed, want, n0, pre, cur, i, n)
        && (RuleKey(observed[i].rule) in want || n == 0)
    ensures RuleKey(observed[i].rule) in want ==> Deleting(observed, want, n0, pre + [observed[i]], cur, i + 1, n)
  {
    TailKeys(observed, i);
    if RuleKey(observed[i].rule) in want {
      assert pre + observed[i..] == (pre + [observed[i]]) + observed[i + 1..];
      if n > 0 {
        assert pre + KeptRules(observed[i..], want, n) == (pre + [observed[i]]) + KeptRules(observed[i + 1..], want, n);
      }
    }
  }

  lemma DeletingDrops(observed: seq<Listed>, want: set<string>, n0: nat, pre: seq<Listed>, cur: seq<Listed>, i: nat,
      n: nat)
    requires i < |observed| && Deleting(observed, want, n0, pre, cur, i, n) && RuleKey(observed[i].rule) !in want
        && n > 0
    ensures DropRule(cur, observed[i].id) == pre + observed[i + 1..]
    ensures Deleting(observed, want, n0, pre, pre + observed[i + 1..], i + 1, n - 1)
  {
    TailKeys(observed, i);
    assert cur == pre + [observed[i]] + observed[i + 1..];
    DropRuleAt(pre, observed[i], observed[i + 1..]);
  }

  lemma DeletingStops(observed: seq<Listed>, want: set<string>, n0: nat, pre: seq<Listed>, cur: seq<Listed>, i: nat,
      n: nat)
    requires i <= |observed| && Deleting(observed, want, n0, pre, cur, i, n) && (n == 0 || i == |observed|)
    ensures cur == KeptRules(observed, want, n0) && Spare(RuleKeys(observed), want, n0) == n
  {
  }

  ghost predicate Unlinking(observed: seq<Service>, want: set<string>, n0: nat, pre: seq<Service>, cur: seq<Service>,
      i: nat, n: nat)
    requires i <= |observed|
  {
    && cur == pre + observed[i..] && (forall j | 0 <= j < |pre| :: AttachKey(pre[j]) in want)
    && KeptServices(observed, want, n0) == pre + KeptServices(observed[i..], want, n)
    && Spare(AttachKeys(observed), want, n0) == Spare(AttachKeys(observed[i..]), want, n)
  }

  lemma UnlinkingStarts(observed: seq<Service>, want: set<string>, n: nat)
    ensures Unlinking(observed, want, n, [], observed, 0, n)
  {
    assert observed[0..] == observed && [] + observed == observed;
    assert [] + KeptServices(observed, want, n) == KeptServices(observed, want, n);
  }

  lemma TailAttachKeys(services: seq<Service>, i: nat)
    requires i < |services|
    ensures services[i..] == [services[i]] + services[i + 1..]
    ensures AttachKeys(services[i..]) == [AttachKey(services[i])] + AttachKeys(services[i + 1..])
    ensures AttachKeys(services[i..])[1..] == AttachKeys(services[i + 1..])
  {
  }

  lemma UnlinkingKeeps(observed: seq<Service>, want: set<string>, n0: nat, pre: seq<Service>, cur: seq<Service>,
      i: nat, n: nat)
    requires i < |observed| && Unlinking(observed, want, n0, pre, cur, i, n)
        && (AttachKey(observed[i]) in want || n == 0)
    ensures AttachKey(observed[i]) in want ==> Unlinking(observed, want, n0, pre + [observed[i]], cur, i + 1, n)
  {
    TailAttachKeys(observed, i);
    if AttachKey(observed[i]) in want {
      assert pre + observed[i..] == (pre + [observed[i]]) + observed[i + 1..];
      if n > 0 {
        assert pre + KeptServices(observed[i..], want, n)
            == (pre + [observed[i]]) + KeptServices(observed[i + 1..], want, n);
      }
    }
  }

  lemma UnlinkingDrops(observed: seq<Service>, want: set<string>, n0: nat, pre: seq<Service>, cur: seq<Service>,
      i: nat, n: nat)
    requires i < |observed| && Unlinking(observed, want, n0, pre, cur, i, n) && AttachKey(observed[i]) !in want && n > 0
    ensures DropService(cur, observed[i]) == pre + observed[i + 1..]
    ensures Unlinking(observed, want, n0, pre, pre + observed[i + 1..], i + 1, n - 1)
  {
    TailAttachKeys(observed, i);
    assert cur == pre + [observed[i]] + observed[i + 1..];
    forall j | 0 <= j < |pre| ensures !Same(pre[j], observed[i]) {
      assert AttachKey(pre[j]) in want;
    }
    DropServiceAt(pre, observed[i], observed[i + 1..]);
  }

  lemma UnlinkingStops(observed: seq<Service>, want: set<string>, n0: nat, pre: seq<Service>, cur: seq<Service>,
      i: nat, n: nat)
    requires i <= |observed| && Unlinking(observed, want, n0, pre, cur, i, n) && (n == 0 || i == |observed|)
    ensures cur == KeptServices(observed, want, n0) && Spare(AttachKeys(observed), want, n0) == n
  {
  }

  /** After `i` wanted keys: which have been created, and what `n` more creations will do. */
  ghost predicate Creating(wanted: seq<string>, have: set<string>, blocked: set<string>, n0: nat, done: seq<string>,
      i: nat, n: nat)
    requires i <= |wanted|
  {
    && Chosen(wanted, have, blocked, n0) == done + Chosen(wanted[i..], have, blocked, n)
    && Rest(wanted, have, blocked, n0) == Rest(wanted[i..], have, blocked, n)
  }

  lemma CreatingStarts(wanted: seq<string>, have: set<string>, blocked: set<string>, n: nat)
    ensures Creating(wanted, have, blocked, n, [], 0, n)
  {
    assert wanted[0..] == wanted && [] + Chosen(wanted, have, blocked, n) == Chosen(wanted, have, blocked, n);
  }

  lemma CreatingSteps(wanted: seq<string>, have: set<string>, blocked: set<string>, n0: nat, done: seq<string>,
      i: nat, n: nat)
    requires i < |wanted| && Creating(wanted, have, blocked, n0, done, i, n)
    ensures wanted[i] in have ==> Creating(wanted, have, blocked, n0, done, i + 1, n)
    ensures wanted[i] !in have && wanted[i] !in blocked && n > 0 ==>
        Creating(wanted, have, blocked, n0, done + [wanted[i]], i + 1, n - 1)
    ensures wanted[i] !in have && wanted[i] in blocked ==> done == Chosen(wanted, have, blocked, n0)
  {
    assert wanted[i..][1..] == wanted[i + 1..] && wanted[i..][0] == wanted[i];
  }

  lemma CreatingStops(wanted: seq<string>, have: set<string>, blocked: set<string>, n0: nat, done: seq<string>,
      i: nat, n: nat)
    requires i <= |wanted| && Creating(wanted, have, blocked, n0, done, i, n) && (n == 0 || i == |wanted|)
    ensures done == Chosen(wanted, have, blocked, n0) && Rest(wanted, have, blocked, n0) == n
  {
  }

  lemma NothingNew(rules: seq<Listed>, desired: map<string, Rule>, next: nat)
    ensures rules + NewRules([], desired, next) == rules
  {
  }

  lemma NoNewServices(services: seq<Service>, desired: map<string, Service>)
    ensures services + NewServices([], desired) == services
  {
  }

  lemma NewRulesSnoc(rules: seq<Listed>, keys: seq<string>, k: string, desired: map<string, Rule>, next: nat)
    requires k in desired
    ensures rules + NewRules(keys + [k], desired, next)
        == rules + NewRules(keys, desired, next) + [Listed(next + |keys|, desired[k])]
  {
    assert NewRules(keys + [k], desired, next) == NewRules(keys, desired, next) + [Listed(next + |keys|, desired[k])];
  }

  lemma NewServicesSnoc(services: seq<Service>, keys: seq<string>, k: string, desired: map<string, Service>)
    requires k in desired
    ensures services + NewServices(keys + [k], desired) ==
            services + NewServices(keys, desired) + [Service(desired[k].id, Normalize(desired[k].kind))]
  {
    assert NewServices(keys + [k], desired) == NewServices(keys, desired)
        + [Service(desired[k].id, Normalize(desired[k].kind))];
  }

  /** Deletions first; when they use the budget up nothing is created. */
  lemma RulesByPhases(rules: seq<Listed>, desired: map<string, Rule>, n: nat, next: nat)
    ensures var spare := Spare(RuleKeys(rules), desired.Keys, n);
            var keys := Chosen(SortedSet(desired.Keys), SetOf(RuleKeys(rules)), {}, spare);
            && RulesAfter(rules, desired, n, next) == KeptRules(rules, desired.Keys, n) + NewRules(keys, desired, next)
            && RuleChoice(rules, desired, n) == keys
            && RulesLeft(rules, desired, n) == Rest(SortedSet(desired.Keys), SetOf(RuleKeys(rules)), {}, spare)
            && (spare == 0 ==> keys == [] && RulesLeft(rules, desired, n) == 0
                               && RulesAfter(rules, desired, n, next) == KeptRules(rules, desired.Keys, n))
  {
  }

  lemma ServicesByPhases(services: seq<Service>, desired: map<string, Service>, blocked: set<string>, n: nat)
    ensures var spare := Spare(AttachKeys(services), desired.Keys, n);
            var keys := Chosen(SortedSet(desired.Keys), SetOf(AttachKeys(services)), blocked, spare);
            && ServicesAfter(services, desired, blocked, n)
                == KeptServices(services, desired.Keys, n) + NewServices(keys, desired)
            && (spare == 0 ==>
                  keys == [] && ServicesAfter(services, desired, blocked, n) == KeptServices(services, desired.Keys, n))
  {
  }

  // ---- the controller ------------------------------------------------------------------------------

  class Controller {
    const cloud: Cloud
    const id: string

    constructor (upstream: Cloud, group: string)
      ensures cloud == upstream && id == group
    {
      cloud, id := upstream, group;
    }

    /** First loop: every rule that is not wanted is deleted while the budget lasts. */
    method DeleteUnwantedRules(desired: map<string, Rule>, budget: nat, healthy: nat)
      returns (left: nat, alive: nat, ok: bool)
      requires id in cloud.groups && DistinctIds(cloud.groups[id].rules)
      modifies cloud`groups
      ensures var rules, n := old(cloud.groups[id].rules), Min(budget, healthy);
              && cloud.groups == WithRules(old(cloud.groups), id, KeptRules(rules, desired.Keys, n))
              && left <= budget && alive <= healthy && budget - left == healthy - alive
              && Min(left, alive) == Spare(RuleKeys(rules), desired.Keys, n)
              && (!ok ==> alive == 0 < left)
    {
      hide Deleting, KeptRules, Spare, RuleKeys, RuleKey, DropRule;
      var observed := cloud.groups[id].rules;
      left, alive, ok := budget, healthy, true;
      ghost var pre, cur, n0 := [], observed, Min(budget, healthy);
      Replacing(cloud.groups, id);
      DeletingStarts(observed, desired.Keys, n0);
      for i := 0 to |observed|
        invariant cloud.groups == WithRules(old(cloud.groups), id, cur) && ok
        invariant left <= budget && alive <= healthy && budget - left == healthy - alive
        invariant Deleting(observed, desired.Keys, n0, pre, cur, i, Min(left, alive))
      {
        if left == 0 {
          DeletingStops(observed, desired.Keys, n0, pre, cur, i, 0);
          return;
        }
        if RuleKey(observed[i].rule) !in desired {
          if alive == 0 {
            DeletingStops(observed, desired.Keys, n0, pre, cur, i, 0);
            ok := false;
            return;
          }
          DeletingDrops(observed, desired.Keys, n0, pre, cur, i, Min(left, alive));
          RulesTwice(old(cloud.groups), id, cur, pre + observed[i + 1..]);
          cloud.DeleteRule(id, observed[i].id);
          cur := pre + observed[i + 1..];
          left, alive := left - 1, alive - 1;
        } else {
          DeletingKeeps(observed, desired.Keys, n0, pre, cur, i, Min(left, alive));
          pre := pre + [observed[i]];
        }
      }
      DeletingStops(observed, desired.Keys, n0, pre, cur, |observed|, Min(left, alive));
    }

    /** Second loop: every wanted rule that was not listed is created, in key order, while the budget lasts. */
    method CreateMissingRules(desired: map<string, Rule>, have: set<string>, budget: nat, healthy: nat)
      returns (left: nat, alive: nat, ok: bool)
      requires id in cloud.groups
      modifies cloud
      ensures var n, wanted := Min(budget, healthy), SortedSet(desired.Keys);
              var keys := Chosen(wanted, have, {}, n);
              && cloud.groups == WithRules(old(cloud.groups), id,
                  old(cloud.groups[id].rules) + NewRules(keys, desired, old(cloud.nextRule)))
              && cloud.nextRule == old(cloud.nextRule) + |keys| && left <= budget && alive <= healthy
              && budget - left == healthy - alive
              && Min(left, alive) == Rest(wanted, have, {}, n)
              && (!ok ==> alive == 0 < left)
    {
      hide Creating, Chosen, Rest, NewRules, SortedSet;
      var wanted := SortedKeys(desired.Keys);
      left, alive, ok := budget, healthy, true;
      ghost var done: seq<string> := [];
      ghost var n0, before, next := Min(budget, healthy), cloud.groups[id].rules, cloud.nextRule;
      ghost var cur := before + NewRules([], desired, next);
      NothingNew(before, desired, next);
      Replacing(cloud.groups, id);
      CreatingStarts(wanted, have, {}, n0);
      for i := 0 to |wanted|
        invariant cloud.groups == WithRules(old(cloud.groups), id, cur) && cur == before + NewRules(done, desired, next)
        invariant cloud.nextRule == next + |done| && ok
        invariant left <= budget && alive <= healthy && budget - left == healthy - alive
        invariant Creating(wanted, have, {}, n0, done, i, Min(left, alive))
      {
        if left == 0 {
          CreatingStops(wanted, have, {}, n0, done, i, 0);
          return;
        }
        CreatingSteps(wanted, have, {}, n0, done, i, Min(left, alive));
        if wanted[i] in have { continue; }
        if alive == 0 {
          CreatingStops(wanted, have, {}, n0, done, i, 0);
          ok := false;
          return;
        }
        SortedSetMember(desired.Keys, i);
        NewRulesSnoc(before, done, wanted[i], desired, next);
        RulesTwice(old(cloud.groups), id, cur, cur + [Listed(cloud.nextRule, desired[wanted[i]])]);
        cur := cur + [Listed(cloud.nextRule, desired[wanted[i]])];
        cloud.CreateRule(id, desired[wanted[i]]);
        left, alive := left - 1, alive - 1;
        done := done + [wanted[i]];
      }
      CreatingStops(wanted, have, {}, n0, done, |wanted|, Min(left, alive));
    }

    method ReconcileRules(desired: map<string, Rule>, budget: nat, healthy: nat)
      returns (left: nat, alive: nat, ok: bool)
      requires id in cloud.groups && DistinctIds(cloud.groups[id].rules)
      modifies cloud
      ensures var rules, n := old(cloud.groups[id].rules), Min(budget, healthy);
              && cloud.groups == WithRules(old(cloud.groups), id, RulesAfter(rules, desired, n, old(cloud.nextRule)))
              && cloud.nextRule == old(cloud.nextRule) + |RuleChoice(rules, desired, n)|
              && left <= budget && alive <= healthy && budget - left == healthy - alive
              && Min(left, alive) == RulesLeft(rules, desired, n) && (!ok ==> alive == 0 < left)
    {
      hide KeptRules, Spare, Chosen, Rest, RuleKeys, NewRules, RulesAfter, RuleChoice, RulesLeft, DistinctIds;
      var have := SetOf(RuleKeys(cloud.groups[id].rules));
      Replacing(cloud.groups, id);
      RulesByPhases(cloud.groups[id].rules, desired, Min(budget, healthy), cloud.nextRule);
      left, alive, ok := DeleteUnwantedRules(desired, budget, healthy);
      if !ok { return; }
      left, alive, ok := CreateMissingRules(desired, have, left, alive);
    }

    /** Looks the service up, refuses when another group has it, links it otherwise; a failed lookup counts as free. */
    method Attach(s: Service, key: string, lookupFails: set<string>, alive: nat) returns (linked: bool)
      requires id in cloud.groups
      modifies cloud`groups
      ensures linked <==> (key in lookupFails || !Elsewhere(old(cloud.groups), id, s)) && alive > 0
      ensures cloud.groups == if linked
                then WithServices(old(cloud.groups), id,
                    old(cloud.groups[id].services) + [Service(s.id, Normalize(s.kind))])
                else old(cloud.groups)
    {
      if key !in lookupFails && Elsewhere(cloud.groups, id, s) { return false; }
      if alive == 0 { return false; }
      cloud.Link(id, Service(s.id, Normalize(s.kind)));
      return true;
    }

    method UnlinkUnwanted(desired: map<string, Service>, budget: nat, healthy: nat)
      returns (left: nat, alive: nat, ok: bool)
      requires id in cloud.groups
      modifies cloud`groups
      ensures var services, n := old(cloud.groups[id].services), Min(budget, healthy);
              && cloud.groups == WithServices(old(cloud.groups), id, KeptServices(services, desired.Keys, n))
              && left <= budget && alive <= healthy && budget - left == healthy - alive
              && Min(left, alive) == Spare(AttachKeys(services), desired.Keys, n)
              && (!ok ==> alive == 0 < left)
    {
      hide Unlinking, KeptServices, Spare, AttachKeys, AttachKey, DropService;
      var observed := cloud.groups[id].services;
      left, alive, ok := budget, healthy, true;
      ghost var pre, cur, n0 := [], observed, Min(budget, healthy);
      Replacing(cloud.groups, id);
      UnlinkingStarts(observed, desired.Keys, n0);
      for i := 0 to |observed|
        invariant cloud.groups == WithServices(old(cloud.groups), id, cur) && ok
        invariant left <= budget && alive <= healthy && budget - left == healthy - alive
        invariant Unlinking(observed, desired.Keys, n0, pre, cur, i, Min(left, alive))
      {
        if left == 0 {
          UnlinkingStops(observed, desired.Keys, n0, pre, cur, i, 0);
          return;
        }
        if AttachKey(observed[i]) !in desired {
          if alive == 0 {
            UnlinkingStops(observed, desired.Keys, n0, pre, cur, i, 0);
            ok := false;
            return;
          }
          UnlinkingDrops(observed, desired.Keys, n0, pre, cur, i, Min(left, alive));
          ServicesTwice(old(cloud.groups), id, cur, pre + observed[i + 1..]);
          cloud.Unlink(id, observed[i]);
          cur := pre + observed[i + 1..];
          left, alive := left - 1, alive - 1;
        } else {
          UnlinkingKeeps(observed, desired.Keys, n0, pre, cur, i, Min(left, alive));
          pre := pre + [observed[i]];
        }
      }
      UnlinkingStops(observed, desired.Keys, n0, pre, cur, |observed|, Min(left, alive));
    }

    method LinkMissing(desired: map<string, Service>, have: set<string>, lookupFails: set<string>, budget: nat,
        healthy: nat)
      returns (ok: bool)
      requires id in cloud.groups
      modifies cloud`groups
      ensures var n, wanted := Min(budget, healthy), SortedSet(desired.Keys);
              var keys := Chosen(wanted, have, Blocked(old(cloud.groups), id, desired, lookupFails), n);
              && cloud.groups == WithServices(old(cloud.groups), id,
                  old(cloud.groups[id].services) + NewServices(keys, desired))
              && (healthy >= budget && Blocked(old(cloud.groups), id, desired, lookupFails) == {} ==> ok)
    {
      hide Creating, Chosen, Rest, NewServices, SortedSet, Elsewhere;
      var wanted := SortedKeys(desired.Keys);
      var left: nat, alive: nat := budget, healthy;
      ok := true;
      ghost var done: seq<string> := [];
      ghost var n0, before, blocked := Min(budget, healthy), cloud.groups[id].services,
          Blocked(cloud.groups, id, desired, lookupFails);
      ghost var cur := before + NewServices([], desired);
      NoNewServices(before, desired);
      Replacing(cloud.groups, id);
      CreatingStarts(wanted, have, blocked, n0);
      for i := 0 to |wanted|
        invariant cloud.groups == WithServices(old(cloud.groups), id, cur) && cur == before + NewServices(done, desired)
        invariant ok && left <= budget && alive <= healthy && budget - left == healthy - alive
        invariant Creating(wanted, have, blocked, n0, done, i, Min(left, alive))
      {
        if left == 0 {
          CreatingStops(wanted, have, blocked, n0, done, i, 0);
          return;
        }
        CreatingSteps(wanted, have, blocked, n0, done, i, Min(left, alive));
        if wanted[i] in have { continue; }
        SortedSetMember(desired.Keys, i);
        var s := desired[wanted[i]];
        SameElsewhere(old(cloud.groups), cloud.groups, id, s);
        assert wanted[i] in blocked <==> wanted[i] !in lookupFails && Elsewhere(cloud.groups, id, s);
        ok := Attach(s, wanted[i], lookupFails, alive);
        if !ok {
          if wanted[i] !in blocked { CreatingStops(wanted, have, blocked, n0, done, i, 0); }
          return;
        }
        NewServicesSnoc(before, done, wanted[i], desired);
        ServicesTwice(old(cloud.groups), id, cur, cur + [Service(s.id, Normalize(s.kind))]);
        cur := cur + [Service(s.id, Normalize(s.kind))];
        left, alive := left - 1, alive - 1;
        done := done + [wanted[i]];
      }
      CreatingStops(wanted, have, blocked, n0, done, |wanted|, Min(left, alive));
    }

    method ReconcileAttachments(desired: map<string, Service>, lookupFails: set<string>, budget: nat, healthy: nat)
      returns (ok: bool)
      requires id in cloud.groups
      modifies cloud`groups
      ensures var services, n := old(cloud.groups[id].services), Min(budget, healthy);
              var blocked := Blocked(old(cloud.groups), id, desired, lookupFails);
              && cloud.groups == WithServices(old(cloud.groups), id, ServicesAfter(services, desired, blocked, n))
              && (healthy >= budget && blocked == {} ==> ok)
    {
      hide KeptServices, Spare, Chosen, Rest, AttachKeys, NewServices, ServicesAfter, Blocked;
      var have := SetOf(AttachKeys(cloud.groups[id].services));
      ghost var blocked := Blocked(cloud.groups, id, desired, lookupFails);
      Replacing(cloud.groups, id);
      ServicesByPhases(cloud.groups[id].services, desired, blocked, Min(budget, healthy));
      var left, alive;
      left, alive, ok := UnlinkUnwanted(desired, budget, healthy);
      if !ok { return; }
      SameBlocked(old(cloud.groups), cloud.groups, id, desired, lookupFails);
      ok := LinkMissing(desired, have, lookupFails, left, alive);
    }

    /** Name and description, then the rules, then the attachments, under one budget. */
    method Update(s: Spec, healthy: nat, lookupFails: set<string>) returns (ok: bool)
      requires WellFormed(cloud.State())
      modifies cloud
      ensures cloud.State() == Updated(old(cloud.State()), id, s, healthy, lookupFails)
      ensures WellFormed(cloud.State())
    {
      hide RulesAfter, ServicesAfter, RuleChoice, RulesLeft, RuleMap, AttachMap, Duplicated, Blocked, Updated;
      var desired, dup := DesiredRuleSet(s.rules);
      NotUpdated(cloud.State(), id, s, healthy, lookupFails);
      UpdatedStaysFormed(cloud.State(), id, s, healthy, lookupFails);
      if dup || id !in cloud.groups { return false; }
      var g := cloud.groups[id];
      if g.policy != EffectivePolicy(s.policy) { return false; }
      assert RulesFormed(g.rules, cloud.nextRule);
      var alive := healthy;
      if g.name != s.name || g.description != s.description.GetOr("") {
        if alive == 0 { return false; }
        cloud.Rename(id, s.name, s.description.GetOr(""));
        alive := alive - 1;
      }
      ghost var renamed := cloud.groups;
      UpdatedByPhases(old(cloud.State()), id, s, healthy, lookupFails, renamed, alive);
      var left;
      left, alive, ok := ReconcileRules(desired, MAX_MUTATIONS, alive);
      var services := DesiredAttachSet(s.services);
      OnlyOwnRules(old(cloud.groups), renamed, cloud.groups, id, services, lookupFails);
      if !ok { return; }
      ok := ReconcileAttachments(services, lookupFails, left, alive);
    }
  }

  /** The cases in which an Update leaves the upstream alone. */
  lemma NotUpdated(c: CloudState, id: string, s: Spec, healthy: nat, lookupFails: set<string>)
    ensures id !in c.groups || Rejected(c.groups[id], s) || (Renamed(c.groups[id], s) && healthy == 0)
            ==> Updated(c, id, s, healthy, lookupFails) == c
  {
  }

  /** The rules are replaced first, then the services with what is left of the budget; with nothing left they stay. */
  lemma UpdatedByPhases(c: CloudState, id: string, s: Spec, healthy: nat, lookupFails: set<string>,
      renamed: map<string, Group>, alive: nat)
    requires id in c.groups && !Rejected(c.groups[id], s) && (Renamed(c.groups[id], s) ==> healthy > 0)
    requires alive == if Renamed(c.groups[id], s) then healthy - 1 else healthy
    requires renamed == c.groups[id := c.groups[id].(name := s.name, description := s.description.GetOr(""))]
    ensures var g, n, desired, services := c.groups[id], Min(MAX_MUTATIONS, alive), RuleMap(s.rules),
        AttachMap(s.services);
            var rules, left := RulesAfter(g.rules, desired, n, c.nextRule), RulesLeft(g.rules, desired, n);
            var after := WithRules(renamed, id, rules);
            && Updated(c, id, s, healthy, lookupFails) == CloudState(
                 WithServices(after, id, ServicesAfter(g.services, services,
                     Blocked(c.groups, id, services, lookupFails), left)),
                 c.nextRule + |RuleChoice(g.rules, desired, n)|)
            && (left == 0 ==> Updated(c, id, s, healthy, lookupFails).groups == after)
            && renamed[id].rules == g.rules && after[id].services == g.services
  {
    hide RulesAfter, ServicesAfter, RuleChoice, RulesLeft, RuleMap, AttachMap, Duplicated, Blocked;
    var g, n, desired, services := c.groups[id], Min(MAX_MUTATIONS, alive), RuleMap(s.rules), AttachMap(s.services);
    IdleServices(g.services, services, Blocked(c.groups, id, services, lookupFails));
  }

  lemma IdleServices(services: seq<Service>, desired: map<string, Service>, blocked: set<string>)
    ensures ServicesAfter(services, desired, blocked, 0) == services
  {
  }

  /** Replacing the group's own name and rules changes nothing about what other groups hold. */
  lemma OnlyOwnRules(a: map<string, Group>, renamed: map<string, Group>, b: map<string, Group>, id: string,
                     desired: map<string, Service>, lookupFails: set<string>)
    requires id in a && renamed.Keys == a.Keys && (forall g | g in a && g != id :: renamed[g] == a[g])
    requires b.Keys == renamed.Keys && forall g | g in b && g != id :: b[g] == renamed[g]
    ensures Blocked(b, id, desired, lookupFails) == Blocked(a, id, desired, lookupFails)
  {
    SameBlocked(a, b, id, desired, lookupFails);
  }

  lemma SameElsewhere(a: map<string, Group>, b: map<string, Group>, id: string, s: Service)
    requires a.Keys == b.Keys && forall g | g in a && g != id :: a[g].services == b[g].services
    ensures Elsewhere(a, id, s) == Elsewhere(b, id, s)
  {
  }

  lemma SameBlocked(a: map<string, Group>, b: map<string, Group>, id: string, desired: map<string, Service>,
      lookupFails: set<string>)
    requires a.Keys == b.Keys && forall g | g in a && g != id :: a[g].services == b[g].services
    ensures Blocked(a, id, desired, lookupFails) == Blocked(b, id, desired, lookupFails)
  {
    forall k | k in desired ensures Elsewhere(a, id, desired[k]) == Elsewhere(b, id, desired[k]) {
      SameElsewhere(a, b, id, desired[k]);
    }
  }
}
