/** What one settings PATCH achieves, means and leaves alone. */
module CdnSettingsTheorems {
  import opened Wrappers
  import opened Text
  import opened CdnSettings

  // ---- delivery domains -----------------------------------------------------------

  lemma {:induction false} TechnicalAliasChoice(aliases: seq<string>)
    ensures TechnicalAlias(aliases) == "" ==> forall a | a in aliases :: !HasSuffix(a, TECHNICAL_SUFFIX)
    ensures TechnicalAlias(aliases) != "" ==>
              TechnicalAlias(aliases) in aliases && HasSuffix(TechnicalAlias(aliases), TECHNICAL_SUFFIX)
  {
    if |aliases| > 0 {
      assert forall a | a in aliases :: a == aliases[0] || a in aliases[1..];
      if !HasSuffix(aliases[0], TECHNICAL_SUFFIX) { TechnicalAliasChoice(aliases[1..]); }
    }
  }

  lemma WithoutKeepsAll(s: seq<string>, drop: string)
    ensures multiset(Without(s, drop)) == multiset(s) <==> drop !in s
  {
    WithoutCounts(s, drop);
    if drop in s {
      assert multiset(Without(s, drop))[drop] != multiset(s)[drop];
    }
  }

  /** The upstream's technical domain `t` stays apart from the custom ones. */
  predicate ToldApart(ds: seq<string>, t: string) {
    if t != "" then t !in ds else "" !in ds && forall d | d in ds :: !HasSuffix(d, TECHNICAL_SUFFIX)
  }

  /** The declared custom domains are there to be sent and cannot be mistaken for the technical one. */
  predicate DomainsExpressible(domains: Option<seq<string>>, aliases: seq<string>) {
    DomainsPatch(domains, aliases).Some? ==>
      domains.value != [] && ToldApart(domains.value, TechnicalAlias(aliases))
  }

  lemma SameMembers(a: seq<string>, b: seq<string>)
    requires multiset(a) == multiset(b)
    ensures forall x :: x in a <==> x in b
  {
    forall x ensures x in a <==> x in b {
      assert x in multiset(a) <==> x in multiset(b);
    }
  }

  lemma AliasesAfterWrite(aliases: seq<string>, ds: seq<string>)
    requires ds != []
    ensures multiset(CustomAliases(ApplyAliases(aliases, Sort(ds)))) == multiset(ds)
            <==> ToldApart(ds, TechnicalAlias(aliases))
  {
    var t, want := TechnicalAlias(aliases), Sort(ds);
    TechnicalAliasChoice(aliases);
    SortSorts(ds);
    SameMembers(ds, want);
    var written := ApplyAliases(aliases, want);
    if t != "" {
      assert written == [t] + want && TechnicalAlias(written) == t;
      assert multiset(written) == multiset{t} + multiset(want);
      WithoutCounts(written, t);
      if t in ds {
        assert multiset(CustomAliases(written))[t] == 0 && multiset(ds)[t] > 0;
      } else {
        assert forall x :: multiset(CustomAliases(written))[x] == multiset(ds)[x];
      }
    } else {
      assert written == want;
      TechnicalAliasChoice(want);
      WithoutKeepsAll(want, TechnicalAlias(want));
    }
  }

  lemma DomainsConverge(domains: Option<seq<string>>, aliases: seq<string>)
    requires DomainsPatch(domains, aliases).Some?
    ensures DomainsPatch(domains, ApplyAliases(aliases, DomainsPatch(domains, aliases).value)).None?
            <==> DomainsExpressible(domains, aliases)
  {
    var ds := domains.value;
    SortSorts(ds);
    if ds != [] {
      AliasesAfterWrite(aliases, ds);
      SortEqualIff(ds, CustomAliases(ApplyAliases(aliases, Sort(ds))));
    }
  }

  // ---- request headers ---------------------------------------------------------------

  /** A map comparison through zero-value lookups is exact iff the left map has no empty value. */
  lemma MapsEqualExactIff(a: map<string, string>)
    ensures (forall b :: MapsEqual(a, b) <==> a == b) <==> (forall k | k in a :: a[k] != "")
  {
    if forall k | k in a :: a[k] != "" {
      forall b ensures MapsEqual(a, b) <==> a == b {
        if MapsEqual(a, b) { NonEmptyValuesExact(a, b); }
      }
    } else {
      var k :| k in a && a[k] == "";
      var other := FreshKey(a.Keys);
      var b := (a - {k})[other := "x"];
      assert b.Keys == (a.Keys - {k}) + {other};
      assert |b.Keys| == |a.Keys|;
      assert MapsEqual(a, b);
      assert other in b && other !in a;
    }
  }

  lemma NonEmptyValuesExact(a: map<string, string>, b: map<string, string>)
    requires MapsEqual(a, b) && forall k | k in a :: a[k] != ""
    ensures a == b
  {
    assert forall k | k in a :: ZeroLookup(b, k) == a[k];
    assert a.Keys <= b.Keys;
    SubsetSize(a.Keys, b.Keys);
    assert |a.Keys| == |a| && |b.Keys| == |b|;
  }

  // ---- one PATCH converges, exactly when it can be expressed ---------------------------

  predicate RequestExpressible(hs: Option<seq<HeaderSpec>>, obs: map<string, string>) {
    RequestPatch(hs, obs).Some? ==> hs.value != []
  }

  predicate CorsExpressible(cors: Option<CorsSpec>, obs: Cors) {
    CorsPatch(cors, obs).Some? ==> cors.value.origins != [] || obs.domains == []
  }

  predicate CacheExpressible(cache: Option<CacheSpec>, obs: Cache) {
    CachePatch(cache, obs).Some? ==> cache.value.edgeTTL.GetOr(0) >= 0 && cache.value.browserTTL.GetOr(0) >= 0
  }

  predicate RobotsExpressible(perf: Option<PerformanceSpec>, obs: Robots) {
    RobotsPatch(perf, obs).Some? ==>
      perf.value.robots.value.mode == "custom" || perf.value.robots.value.custom.GetOr("") == ""
  }

  /** What a single body can carry: section by section, the values the wire form does not lose. */
  predicate Expressible(p: Spec, cfg: Config) {
    && DomainsExpressible(p.domains, AliasesOf(cfg))
    && RequestExpressible(p.requestHeaders, ObsHeaders(cfg).request)
    && CorsExpressible(p.cors, ObsHeaders(cfg).cors.GetOr(NO_CORS))
    && CacheExpressible(p.cache, ObsCache(cfg))
    && RobotsExpressible(p.performance, ObsRobots(cfg))
  }

  lemma HeaderMapEmptyIff(hs: seq<HeaderSpec>)
    ensures HeaderMap(hs) == map[] <==> hs == []
  {
    if |hs| > 0 { assert hs[|hs| - 1].name in HeaderMap(hs); }
  }

  lemma HeadersConverge(hs: Option<seq<HeaderSpec>>, cors: Option<CorsSpec>, obs: Headers)
    requires HeadersPatchOf(hs, cors, obs).Some?
    ensures var written := ApplyHeaders(obs, HeadersPatchOf(hs, cors, obs).value);
            HeadersPatchOf(hs, cors, written).None? <==>
            RequestExpressible(hs, obs.request) && CorsExpressible(cors, obs.cors.GetOr(NO_CORS))
  {
    var written := ApplyHeaders(obs, HeadersPatchOf(hs, cors, obs).value);
    RequestConverge(hs, cors, obs, written);
    CorsConverge(hs, cors, obs, written);
  }

  lemma RequestConverge(hs: Option<seq<HeaderSpec>>, cors: Option<CorsSpec>, obs: Headers, written: Headers)
    requires HeadersPatchOf(hs, cors, obs).Some?
    requires written == ApplyHeaders(obs, HeadersPatchOf(hs, cors, obs).value)
    ensures RequestPatch(hs, written.request).None? <==> RequestExpressible(hs, obs.request)
  {
    if hs.Some? { HeaderMapEmptyIff(hs.value); }
  }

  lemma CorsConverge(hs: Option<seq<HeaderSpec>>, cors: Option<CorsSpec>, obs: Headers, written: Headers)
    requires HeadersPatchOf(hs, cors, obs).Some?
    requires written == ApplyHeaders(obs, HeadersPatchOf(hs, cors, obs).value)
    ensures CorsPatch(cors, written.cors.GetOr(NO_CORS)).None? <==> CorsExpressible(cors, obs.cors.GetOr(NO_CORS))
  {
    if cors.Some? {
      SortIdempotent(cors.value.origins);
      SortSorts(cors.value.origins);
      SortSorts(obs.cors.GetOr(NO_CORS).domains);
      SortSorts([]);
    }
  }

  lemma CacheConverge(cache: Option<CacheSpec>, obs: Cache)
    requires CachePatch(cache, obs).Some?
    ensures CachePatch(cache, CachePatch(cache, obs).value).None? <==> CacheExpressible(cache, obs)
  {
    var want := DesiredQueryArgs(cache.value);
    assert QueryArgsEqual(want, want) by { SortIdempotent(cache.value.queryParams); }
  }

  lemma DeliveryConverge(perf: Option<PerformanceSpec>, obs: Delivery)
    requires DeliveryPatch(perf, obs).Some?
    ensures DeliveryPatch(perf, ApplyDelivery(obs, DeliveryPatch(perf, obs).value)).None?
  {
  }

  lemma SecurityConverge(sec: Option<SecuritySpec>, obs: Security, tokenKey: string, echo: bool)
    requires SecurityPatchOf(sec, obs, tokenKey).Some?
    ensures SecurityPatchOf(sec, ApplySecurity(obs, SecurityPatchOf(sec, obs, tokenKey).value, echo), tokenKey).None?
  {
  }

  lemma RobotsConverge(perf: Option<PerformanceSpec>, obs: Robots)
    requires RobotsPatch(perf, obs).Some?
    ensures RobotsPatch(perf, RobotsPatch(perf, obs).value).None? <==> RobotsExpressible(perf, obs)
  {
  }

  /** The configuration half: each section is written once and then judged again. */
  lemma ConfigConverge(p: Spec, cfg: Config, sec: Secrets, echo: bool)
    ensures ConfigPatchOf(p, ApplyConfig(cfg, ConfigPatchOf(p, cfg, sec), echo), sec) == EMPTY_CONFIG_PATCH
            <==> Expressible(p, cfg)
  {
    var patch := ConfigPatchOf(p, cfg, sec);
    var after := ApplyConfig(cfg, patch, echo);
    if patch.aliases.Some? { DomainsConverge(p.domains, AliasesOf(cfg)); }
    if patch.headers.Some? { HeadersConverge(p.requestHeaders, p.cors, ObsHeaders(cfg)); }
    if patch.cache.Some? { CacheConverge(p.cache, ObsCache(cfg)); }
    if patch.delivery.Some? { DeliveryConverge(p.performance, ObsDelivery(cfg)); }
    if patch.security.Some? { SecurityConverge(p.security, ObsSecurity(cfg), sec.tokenKey, echo); }
    if patch.robots.Some? { RobotsConverge(p.performance, ObsRobots(cfg)); }
  }

  lemma OriginConverge(p: Spec, res: Resource, cfg: Config, sec: Secrets, echo: bool)
    ensures var w := WriteOf(p, res, cfg, sec);
            OriginPatch(p, ApplyResource(res, w), ApplyWrite(cfg, w, echo)).None?
  {
    var w := WriteOf(p, res, cfg, sec);
    var mid := if w.config.Some? then ApplyConfig(cfg, w.config.value, echo) else cfg;
    assert ObsOrigin(mid).servers == ObsOrigin(cfg).servers && ObsOrigin(mid).useHttps == ObsOrigin(cfg).useHttps;
  }

  lemma ConfigAfterWrite(p: Spec, res: Resource, cfg: Config, sec: Secrets, echo: bool)
    ensures ConfigPatchOf(p, ApplyWrite(cfg, WriteOf(p, res, cfg, sec), echo), sec) ==
            ConfigPatchOf(p, ApplyConfig(cfg, ConfigPatchOf(p, cfg, sec), echo), sec)
  {
  }

  /**
   After the upstream applies the PATCH, the next pass finds nothing to write exactly when every
   drifted section could be expressed.
   */
  lemma OnePatchConvergesIff(p: Spec, res: Resource, cfg: Config, sec: Secrets, echo: bool)
    ensures var w := WriteOf(p, res, cfg, sec);
            !Dirty(p, ApplyResource(res, w), ApplyWrite(cfg, w, echo), sec) <==> Expressible(p, cfg)
  {
    var w := WriteOf(p, res, cfg, sec);
    ConfigConverge(p, cfg, sec, echo);
    ConfigAfterWrite(p, res, cfg, sec, echo);
    OriginConverge(p, res, cfg, sec, echo);
    assert TrafficPatch(p.trafficLimitGB, ApplyResource(res, w)).None?;
  }

  // ---- what "nothing to write" means -----------------------------------------------------

  /** The declared name, or the object's own when none is given. */
  predicate NameAgrees(p: Spec, name: string) {
    if p.name.None? || p.name == Some("") then name == p.objectName else p.name == Some(name)
  }

  /** Scheme, then the bucket's storage id, or the host with its declared port or the scheme's own. */
  predicate OriginAgrees(p: Spec, res: Resource, cfg: Config) {
    var o := p.origin;
    !p.deleting && o.kind != Bucket(None) ==>
      && (o.https == Some(false) <==> cfg.origin.Some? && cfg.origin.value.useHttps == Some(false))
      && (o.kind.Bucket? ==> res.storageID == o.kind.storageID)
      && (o.kind.Host? ==>
            && res.storageID.None? && cfg.origin.Some? && |cfg.origin.value.servers| > 0
            && var server := cfg.origin.value.servers[0];
            && server.host == o.kind.host
            && match o.port
               case Some(n) => server.port == n
               case None => server.port == if o.https == Some(false) then 80 else 443)
  }

  /** `gb` gibibytes as a 64-bit integer holds them. */
  predicate IsLimit(gb: int, bytes: int) {
    && -0x8000_0000_0000_0000 <= bytes < 0x8000_0000_0000_0000
    && (bytes - gb * 1024 * 1024 * 1024) % 0x1_0000_0000_0000_0000 == 0
  }

  predicate TrafficAgrees(gb: int, limit: Option<int>) {
    if gb == 0 then limit.None? else limit.Some? && IsLimit(gb, limit.value)
  }

  /** The technical alias: the first one under the platform's own suffix. */
  predicate IsTechnical(aliases: seq<string>, a: string) {
    exists k | 0 <= k < |aliases| ::
      && aliases[k] == a && HasSuffix(a, ".cdn.twcstorage.ru")
      && forall j | 0 <= j < k :: !HasSuffix(aliases[j], ".cdn.twcstorage.ru")
  }

  /** The declared domains are the aliases but for the technical one, or for empty ones where there is none. */
  ghost predicate DomainsAgree(domains: seq<string>, aliases: seq<string>) {
    var technical := exists t :: IsTechnical(aliases, t);
    forall a :: multiset(domains)[a] ==
      if (if technical then IsTechnical(aliases, a) else a == "") then 0 else multiset(aliases)[a]
  }

  predicate CacheAgrees(c: CacheSpec, obs: Cache) {
    && c.edgeTTL.GetOr(0) == (if obs.cdn.Some? && "2xx" in obs.cdn.value then obs.cdn.value["2xx"] else 0)
    && obs.browser.GetOr(0) == c.browserTTL.GetOr(0)
    && obs.alwaysOnline.Some? == c.alwaysOnline.GetOr(false)
    && obs.queryArgs.Some? == c.queryMode.Some?
    && (c.queryMode.Some? ==>
          && obs.queryArgs.value.mode == c.queryMode.value
          && multiset(obs.queryArgs.value.list) ==
             if c.queryMode.value == "all" then multiset{} else multiset(c.queryParams))
  }

  predicate DeliveryAgrees(perf: PerformanceSpec, obs: Delivery) {
    && (perf.http3 == Some(true) <==> obs.http3 == Some(true))
    && (perf.gzip == Some(true) <==> obs.gzip == Some(true))
    && (perf.sliceMB.Some? <==> obs.largeFiles == Some(true))
    && (perf.sliceMB.Some? ==> obs.sliceSize.GetOr(0) == perf.sliceMB.value)
    && (perf.contentOptimization == Some("images") <==> obs.imageOptimization == Some(true))
    && (perf.contentOptimization == Some("video") <==> obs.mp4 == Some(true))
  }

  predicate Names(hs: seq<HeaderSpec>, name: string) {
    exists i | 0 <= i < |hs| :: hs[i].name == name
  }

  predicate IsLast(hs: seq<HeaderSpec>, i: int) {
    0 <= i < |hs| && forall j | i < j < |hs| :: hs[j].name != hs[i].name
  }

  /** The declared names, each with the last value declared for it. */
  ghost predicate RequestAgrees(hs: seq<HeaderSpec>, obs: map<string, string>) {
    && (forall name :: name in obs <==> Names(hs, name))
    && forall i | IsLast(hs, i) :: hs[i].name in obs && obs[hs[i].name] == hs[i].value
  }

  predicate SecurityAgrees(s: SecuritySpec, obs: Security, tokenKey: string) {
    && obs.redirect.GetOr(false) == s.forceHTTPS.GetOr(false)
    && obs.token.Some? == s.token.Some?
    && (s.token.Some? ==>
          && obs.token.value.restrictByIP == s.token.value.restrictByIP.GetOr(false)
          && obs.token.value.secretKey in {"", tokenKey})
  }

  predicate RobotsAgrees(perf: PerformanceSpec, obs: Robots) {
    perf.robots.Some? ==>
      && obs.typ.GetOr("") == perf.robots.value.mode
      && obs.content.GetOr("") == perf.robots.value.custom.GetOr("")
  }

  ghost predicate ConfigAgrees(p: Spec, cfg: Config, sec: Secrets) {
    && (p.domains.Some? ==> DomainsAgree(p.domains.value, cfg.aliases.GetOr([])))
    && (p.origin.awsAuth && !p.origin.kind.Bucket? ==> ObsOrigin(cfg).aws == Some(sec.aws))
    && (p.cache.Some? ==> CacheAgrees(p.cache.value, ObsCache(cfg)))
    && (p.security.Some? ==> SecurityAgrees(p.security.value, ObsSecurity(cfg), sec.tokenKey))
    && (p.performance.Some? ==>
          && DeliveryAgrees(p.performance.value, ObsDelivery(cfg))
          && RobotsAgrees(p.performance.value, ObsRobots(cfg)))
    && (p.requestHeaders.Some? ==> RequestAgrees(p.requestHeaders.value, ObsHeaders(cfg).request))
    && (p.cors.Some? ==> CorsAgrees(p.cors.value, ObsHeaders(cfg).cors.GetOr(NO_CORS)))
  }

  /** Every declared leaf has its declared value upstream; undeclared blocks are not mentioned. */
  ghost predicate Agrees(p: Spec, res: Resource, cfg: Config, sec: Secrets) {
    && NameAgrees(p, res.name)
    && res.description == p.description.GetOr("")
    && (p.projectID.Some? ==> res.projectID == p.projectID.value)
    && OriginAgrees(p, res, cfg)
    && (p.trafficLimitGB.Some? ==> TrafficAgrees(p.trafficLimitGB.value, res.trafficLimit))
    && ConfigAgrees(p, cfg, sec)
  }

  /** No header's last value is empty. */
  predicate HeadersFilled(hs: Option<seq<HeaderSpec>>) {
    hs.Some? ==> forall i | 0 <= i < |hs.value| && IsLast(hs.value, i) :: hs.value[i].value != ""
  }

  lemma LastStep(hs: seq<HeaderSpec>, h: HeaderSpec)
    ensures forall name :: Names(hs + [h], name) <==> name == h.name || Names(hs, name)
    ensures forall i :: IsLast(hs + [h], i) <==> i == |hs| || (IsLast(hs, i) && hs[i].name != h.name)
  {
    var all := hs + [h];
    assert forall i | 0 <= i < |hs| :: all[i] == hs[i];
    assert all[|hs|] == h;
  }

  /** The header map has the declared names, each with its last value. */
  lemma {:induction false} HeaderMapIs(hs: seq<HeaderSpec>)
    ensures RequestAgrees(hs, HeaderMap(hs))
  {
    hide Names, IsLast;
    var n := |hs| - 1;
    if n >= 0 {
      HeaderMapIs(hs[..n]);
      assert hs == hs[..n] + [hs[n]];
      LastStep(hs[..n], hs[n]);
      LastInRange(hs[..n]);
    } else {
      NoLast();
    }
  }

  lemma NoLast()
    ensures forall name :: !Names([], name)
    ensures forall i :: !IsLast([], i)
  {
  }

  lemma LastInRange(hs: seq<HeaderSpec>)
    ensures forall i | IsLast(hs, i) :: 0 <= i < |hs|
  {
  }

  lemma {:induction false} LastOf(hs: seq<HeaderSpec>, i: nat) returns (k: nat)
    requires i < |hs|
    ensures i <= k < |hs| && hs[k].name == hs[i].name && IsLast(hs, k)
    decreases |hs| - i
  {
    if j :| i < j < |hs| && hs[j].name == hs[i].name { k := LastOf(hs, j); } else { k := i; }
  }

  lemma LastOfName(hs: seq<HeaderSpec>, name: string) returns (k: nat)
    requires Names(hs, name)
    ensures k < |hs| && IsLast(hs, k) && hs[k].name == name
  {
    var i :| 0 <= i < |hs| && hs[i].name == name;
    k := LastOf(hs, i);
  }

  lemma RequestAgreesIs(hs: seq<HeaderSpec>, obs: map<string, string>)
    ensures RequestAgrees(hs, obs) <==> obs == HeaderMap(hs)
  {
    hide Names, IsLast, HeaderMap;
    HeaderMapIs(hs);
    LastInRange(hs);
    if RequestAgrees(hs, obs) {
      var m := HeaderMap(hs);
      assert forall name :: name in obs <==> name in m;
      forall name | name in obs ensures obs[name] == m[name] {
        var k := LastOfName(hs, name);
        assert obs[hs[k].name] == hs[k].value == m[hs[k].name];
      }
    }
  }

  lemma HeadersFilledIs(hs: seq<HeaderSpec>)
    ensures HeadersFilled(Some(hs)) <==> forall k | k in HeaderMap(hs) :: HeaderMap(hs)[k] != ""
  {
    hide Names, IsLast, HeaderMap;
    HeaderMapIs(hs);
    LastInRange(hs);
    if HeadersFilled(Some(hs)) {
      forall name | name in HeaderMap(hs) ensures HeaderMap(hs)[name] != "" { var k := LastOfName(hs, name); }
    }
  }

  lemma RequestAgreesIff(hs: Option<seq<HeaderSpec>>, obs: map<string, string>)
    requires hs.Some?
    ensures RequestAgrees(hs.value, obs) ==> RequestPatch(hs, obs).None?
    ensures HeadersFilled(hs) && RequestPatch(hs, obs).None? ==> RequestAgrees(hs.value, obs)
  {
    hide RequestAgrees, HeaderMap, HeadersFilled;
    RequestAgreesIs(hs.value, obs);
    HeadersFilledIs(hs.value);
    if HeadersFilled(hs) && MapsEqual(HeaderMap(hs.value), obs) { NonEmptyValuesExact(HeaderMap(hs.value), obs); }
  }

  lemma {:induction false} TechnicalIs(aliases: seq<string>)
    ensures forall a :: IsTechnical(aliases, a) <==> TechnicalAlias(aliases) != "" && a == TechnicalAlias(aliases)
  {
    if |aliases| > 0 {
      TechnicalIs(aliases[1..]);
      forall a ensures IsTechnical(aliases, a) <==>
          if HasSuffix(aliases[0], TECHNICAL_SUFFIX) then a == aliases[0] else IsTechnical(aliases[1..], a)
      {
        if HasSuffix(aliases[0], TECHNICAL_SUFFIX) {
          if a == aliases[0] { assert aliases[0] == a; }
        } else {
          if IsTechnical(aliases[1..], a) {
            var k :| 0 <= k < |aliases[1..]| && aliases[1..][k] == a && HasSuffix(a, TECHNICAL_SUFFIX)
              && forall j | 0 <= j < k :: !HasSuffix(aliases[1..][j], TECHNICAL_SUFFIX);
            assert aliases[k + 1] == a;
            assert forall j | 0 < j < k + 1 :: aliases[j] == aliases[1..][j - 1];
          }
          if IsTechnical(aliases, a) {
            var k :| 0 <= k < |aliases| && aliases[k] == a && HasSuffix(a, TECHNICAL_SUFFIX)
              && forall j | 0 <= j < k :: !HasSuffix(aliases[j], TECHNICAL_SUFFIX);
            assert aliases[1..][k - 1] == a;
            assert forall j | 0 <= j < k - 1 :: aliases[1..][j] == aliases[j + 1];
          }
        }
      }
    }
  }

  lemma DomainsAgreeIff(domains: seq<string>, aliases: seq<string>)
    ensures DomainsAgree(domains, aliases) <==> Sort(domains) == Sort(CustomAliases(aliases))
  {
    TechnicalIs(aliases);
    SortEqualIff(domains, CustomAliases(aliases));
    var t := TechnicalAlias(aliases);
    assert (exists x :: IsTechnical(aliases, x)) <==> t != "" by { assert t != "" ==> IsTechnical(aliases, t); }
    WithoutCounts(aliases, t);
    if DomainsAgree(domains, aliases) {
      assert forall a :: multiset(domains)[a] == multiset(CustomAliases(aliases))[a];
    }
  }

  lemma TrafficAgreesIff(gb: Option<int>, res: Resource)
    requires gb.Some?
    ensures TrafficPatch(gb, res).None? <==> TrafficAgrees(gb.value, res.trafficLimit)
  {
    if res.trafficLimit.Some? { OneLimit(gb.value, res.trafficLimit.value); }
  }

  lemma OneLimit(gb: int, bytes: int)
    ensures IsLimit(gb, bytes) <==> bytes == LimitBytes(gb)
  {
  }

  lemma DeliveryAgreesIff(perf: PerformanceSpec, obs: Delivery)
    ensures DeliverySettled(perf, obs) <==> DeliveryAgrees(perf, obs)
  {
  }

  lemma NameAgreesIff(p: Spec, name: string)
    ensures name == EffectiveName(p) <==> NameAgrees(p, name)
  {
  }

  lemma SecurityAgreesIff(sec: Option<SecuritySpec>, obs: Security, tokenKey: string)
    requires sec.Some?
    ensures SecurityPatchOf(sec, obs, tokenKey).None? <==> SecurityAgrees(sec.value, obs, tokenKey)
  {
  }

  lemma CacheAgreesIff(c: CacheSpec, obs: Cache)
    ensures CacheSettled(c, obs) <==> CacheAgrees(c, obs)
  {
    if c.queryMode.Some? && obs.queryArgs.Some? {
      SortEqualIff(c.queryParams, obs.queryArgs.value.list);
      SortEqualIff([], obs.queryArgs.value.list);
    }
  }

  predicate CorsAgrees(c: CorsSpec, obs: Cors) {
    multiset(obs.domains) == multiset(c.origins) && obs.always.GetOr(false) == c.always.GetOr(false)
  }

  lemma CorsAgreesIff(cors: Option<CorsSpec>, obs: Cors)
    requires cors.Some?
    ensures CorsPatch(cors, obs).None? <==> CorsAgrees(cors.value, obs)
  {
    SortEqualIff(cors.value.origins, obs.domains);
  }

  lemma OriginAgreesIff(p: Spec, res: Resource, cfg: Config)
    ensures OriginPatch(p, res, cfg).None? <==> OriginAgrees(p, res, cfg)
  {
  }

  lemma NoRequest(obs: map<string, string>)
    ensures RequestPatch(None, obs).None?
  {
  }

  lemma CleanWhenAgreed(p: Spec, res: Resource, cfg: Config, sec: Secrets)
    ensures Agrees(p, res, cfg, sec) ==> !Dirty(p, res, cfg, sec)
    ensures HeadersFilled(p.requestHeaders) && !Dirty(p, res, cfg, sec) ==> Agrees(p, res, cfg, sec)
  {
    hide HeadersFilled, MapsEqual, HeaderMap, RequestPatch, CorsAgrees, CacheSettled, CacheAgrees, SecurityAgrees,
        DeliverySettled, DeliveryAgrees, DomainsAgree, CustomAliases, RequestAgrees, NameAgrees, TrafficPatch,
        TrafficAgrees, OriginAgrees, OriginPatch, EffectiveName;
    NameAgreesIff(p, res.name);
    OriginAgreesIff(p, res, cfg);
    if p.trafficLimitGB.Some? { TrafficAgreesIff(p.trafficLimitGB, res); } else { NoTraffic(res); }
    if p.domains.Some? { DomainsAgreeIff(p.domains.value, AliasesOf(cfg)); }
    if p.cache.Some? { CacheAgreesIff(p.cache.value, ObsCache(cfg)); }
    if p.performance.Some? { DeliveryAgreesIff(p.performance.value, ObsDelivery(cfg)); }
    if p.cors.Some? { CorsAgreesIff(p.cors, ObsHeaders(cfg).cors.GetOr(NO_CORS)); }
    if p.security.Some? { SecurityAgreesIff(p.security, ObsSecurity(cfg), sec.tokenKey); }
    if p.requestHeaders.Some? {
      RequestAgreesIff(p.requestHeaders, ObsHeaders(cfg).request);
    } else {
      NoRequest(ObsHeaders(cfg).request);
    }
  }

  lemma NoTraffic(res: Resource)
    ensures TrafficPatch(None, res).None?
  {
  }

  /**
   The PATCH is minimal: each part is sent exactly when it is declared and the upstream does not agree with it, sorted
   domains included; a header map is never sent over headers that agree.
   */
  lemma WriteIsMinimal(p: Spec, res: Resource, cfg: Config, sec: Secrets)
    ensures var w := WriteOf(p, res, cfg, sec);
            && (w.name.None? <==> NameAgrees(p, res.name))
            && (w.description.None? <==> res.description == p.description.GetOr(""))
            && (w.projectID.None? <==> (p.projectID.Some? ==> p.projectID.value == res.projectID))
            && (w.useHttps.None? <==> OriginAgrees(p, res, cfg))
            && (w.useHttps.None? ==> w.server.None? && w.storageID.None?)
            && (w.trafficLimit.None? <==>
                  (p.trafficLimitGB.Some? ==> TrafficAgrees(p.trafficLimitGB.value, res.trafficLimit)))
    ensures var c := ConfigPatchOf(p, cfg, sec);
            && (c.aliases.None? <==> (p.domains.Some? ==> DomainsAgree(p.domains.value, cfg.aliases.GetOr([]))))
            && (c.aliases.Some? ==>
                  Sorted(c.aliases.value) && multiset(c.aliases.value) == multiset(p.domains.value))
            && (c.cache.None? <==> (p.cache.Some? ==> CacheAgrees(p.cache.value, ObsCache(cfg))))
            && (c.delivery.None? <==>
                  (p.performance.Some? ==> DeliveryAgrees(p.performance.value, ObsDelivery(cfg))))
            && (c.robots.None? <==> (p.performance.Some? ==> RobotsAgrees(p.performance.value, ObsRobots(cfg))))
            && (c.security.None? <==>
                  (p.security.Some? ==> SecurityAgrees(p.security.value, ObsSecurity(cfg), sec.tokenKey)))
            && (c.headers.Some? && c.headers.value.request.Some? ==>
                  p.requestHeaders.Some? && !RequestAgrees(p.requestHeaders.value, ObsHeaders(cfg).request))
            && ((c.headers.None? || c.headers.value.cors.None?) <==>
                  (p.cors.Some? ==> CorsAgrees(p.cors.value, ObsHeaders(cfg).cors.GetOr(NO_CORS))))
            && (c.aws.None? <==>
                  (p.origin.awsAuth && !p.origin.kind.Bucket? ==> ObsOrigin(cfg).aws == Some(sec.aws)))
  {
    hide ConfigPatchOf, NameAgrees, TrafficPatch, TrafficAgrees, OriginAgrees, OriginPatch, EffectiveName, CacheAgrees,
        SecurityAgrees, DeliveryAgrees, RobotsAgrees, RequestAgrees, CorsAgrees, DomainsAgree;
    NameAgreesIff(p, res.name);
    OriginAgreesIff(p, res, cfg);
    if p.trafficLimitGB.Some? { TrafficAgreesIff(p.trafficLimitGB, res); } else { NoTraffic(res); }
    PatchIsMinimal(p, cfg, sec);
  }

  lemma PatchIsMinimal(p: Spec, cfg: Config, sec: Secrets)
    ensures var c := ConfigPatchOf(p, cfg, sec);
            && (c.aliases.None? <==> (p.domains.Some? ==> DomainsAgree(p.domains.value, cfg.aliases.GetOr([]))))
            && (c.aliases.Some? ==>
                  Sorted(c.aliases.value) && multiset(c.aliases.value) == multiset(p.domains.value))
            && (c.cache.None? <==> (p.cache.Some? ==> CacheAgrees(p.cache.value, ObsCache(cfg))))
            && (c.delivery.None? <==>
                  (p.performance.Some? ==> DeliveryAgrees(p.performance.value, ObsDelivery(cfg))))
            && (c.robots.None? <==> (p.performance.Some? ==> RobotsAgrees(p.performance.value, ObsRobots(cfg))))
            && (c.security.None? <==>
                  (p.security.Some? ==> SecurityAgrees(p.security.value, ObsSecurity(cfg), sec.tokenKey)))
            && (c.headers.Some? && c.headers.value.request.Some? ==>
                  p.requestHeaders.Some? && !RequestAgrees(p.requestHeaders.value, ObsHeaders(cfg).request))
            && ((c.headers.None? || c.headers.value.cors.None?) <==>
                  (p.cors.Some? ==> CorsAgrees(p.cors.value, ObsHeaders(cfg).cors.GetOr(NO_CORS))))
            && (c.aws.None? <==>
                  (p.origin.awsAuth && !p.origin.kind.Bucket? ==> ObsOrigin(cfg).aws == Some(sec.aws)))
  {
    hide RequestPatch, CorsAgrees, CacheSettled, CacheAgrees, SecurityAgrees, DeliverySettled, DeliveryAgrees,
        DomainsAgree, CustomAliases, RequestAgrees;
    if p.domains.Some? {
      DomainsAgreeIff(p.domains.value, AliasesOf(cfg));
      SortSorts(p.domains.value);
    }
    if p.cache.Some? { CacheAgreesIff(p.cache.value, ObsCache(cfg)); }
    if p.performance.Some? { DeliveryAgreesIff(p.performance.value, ObsDelivery(cfg)); }
    if p.cors.Some? { CorsAgreesIff(p.cors, ObsHeaders(cfg).cors.GetOr(NO_CORS)); }
    if p.security.Some? { SecurityAgreesIff(p.security, ObsSecurity(cfg), sec.tokenKey); }
    if p.requestHeaders.Some? {
      RequestAgreesIff(p.requestHeaders, ObsHeaders(cfg).request);
    } else {
      NoRequest(ObsHeaders(cfg).request);
    }
  }

  // An upstream on which every declared block reads as declared.

  function IdealCache(c: CacheSpec): Cache {
    Cache(Some(map["2xx" := c.edgeTTL.GetOr(0)]), Some(c.browserTTL.GetOr(0)),
          if c.alwaysOnline.GetOr(false) then Some([]) else None, DesiredQueryArgs(c))
  }

  function IdealDelivery(p: PerformanceSpec): Delivery {
    Delivery(Some(p.http3.GetOr(false)), Some(p.gzip.GetOr(false)), Some(p.sliceMB.Some?), p.sliceMB,
             Some(ContentMode(p) == "images"), Some(ContentMode(p) == "video"))
  }

  function IdealRobots(p: PerformanceSpec): Robots {
    if p.robots.Some? then Robots(Some(p.robots.value.mode), p.robots.value.custom) else NO_ROBOTS
  }

  function IdealSecurity(s: SecuritySpec): Security {
    Security(s.forceHTTPS, None, if s.token.Some? then Some(Token("", s.token.value.restrictByIP.GetOr(false)))
        else None)
  }

  function IdealOrigin(p: Spec, sec: Secrets): Origin {
    var want := ResolveOrigin(p.origin);
    Origin(if want.Some? && want.value.server.Some? then [want.value.server.value] else [],
           if want.Some? then Some(want.value.useHttps) else None, Some(sec.aws))
  }

  /** A name under the upstream's own domain that is not declared. */
  ghost function OwnName(domains: seq<string>): (tech: string)
    ensures HasSuffix(tech, TECHNICAL_SUFFIX) && tech !in domains
  {
    var n := |TECHNICAL_SUFFIX|;
    var taken := set d | d in domains :: if |d| >= n then d[..|d| - n] else "";
    var x := FreshKey(taken);
    assert (x + TECHNICAL_SUFFIX)[..|x|] == x;
    x + TECHNICAL_SUFFIX
  }

  ghost function IdealConfig(p: Spec, sec: Secrets, request: map<string, string>): Config {
    Config(if p.cache.Some? then Some(IdealCache(p.cache.value)) else None,
           if p.performance.Some? then Some(IdealDelivery(p.performance.value)) else None,
           Some(Headers(request, if p.cors.Some? then Some(Cors(p.cors.value.origins, p.cors.value.always)) else None)),
           if p.performance.Some? then Some(IdealRobots(p.performance.value)) else None,
           if p.security.Some? then Some(IdealSecurity(p.security.value)) else None,
           if p.domains.Some? then Some([OwnName(p.domains.value)] + p.domains.value) else None,
           Some(IdealOrigin(p, sec)))
  }

  function IdealResource(p: Spec): Resource {
    Resource(EffectiveName(p), p.description.GetOr(""), false, p.projectID.GetOr(0),
             if p.origin.kind.Bucket? then p.origin.kind.storageID else None,
             if p.trafficLimitGB.None? || p.trafficLimitGB.value == 0 then None
                 else Some(LimitBytes(p.trafficLimitGB.value)))
  }

  lemma {:induction false} WithoutNone(s: seq<string>, x: string)
    requires x !in s
    ensures Without(s, x) == s
  {
    if |s| > 0 { WithoutNone(s[1..], x); }
  }

  lemma OwnNameIsDropped(domains: seq<string>)
    ensures CustomAliases([OwnName(domains)] + domains) == domains
  {
    var tech := OwnName(domains);
    assert ([tech] + domains)[1..] == domains;
    WithoutNone(domains, tech);
  }

  lemma IdealCacheAgrees(c: CacheSpec)
    ensures CacheAgrees(c, IdealCache(c))
  {
    if c.queryMode.Some? && c.queryMode.value != "all" { SortSorts(c.queryParams); }
  }

  lemma IdealSections(perf: PerformanceSpec, s: SecuritySpec, tokenKey: string)
    ensures DeliveryAgrees(perf, IdealDelivery(perf)) && RobotsAgrees(perf, IdealRobots(perf))
    ensures SecurityAgrees(s, IdealSecurity(s), tokenKey)
  {
  }

  lemma IdealOriginAgrees(p: Spec, sec: Secrets, request: map<string, string>)
    ensures OriginAgrees(p, IdealResource(p), IdealConfig(p, sec, request))
  {
    hide EffectiveName, LimitBytes, OwnName, IdealCache, IdealDelivery, IdealRobots, IdealSecurity;
  }

  lemma IdealConfigAgrees(p: Spec, sec: Secrets, request: map<string, string>)
    requires p.requestHeaders.Some? ==> request == HeaderMap(p.requestHeaders.value)
    ensures ConfigAgrees(p, IdealConfig(p, sec, request), sec)
  {
    hide CustomAliases, CacheAgrees, IdealCache, HeaderMap, OwnName, DeliveryAgrees, IdealDelivery, RobotsAgrees,
        IdealRobots, SecurityAgrees, IdealSecurity, ResolveOrigin, DomainsAgree, RequestAgrees;
    if p.domains.Some? {
      OwnNameIsDropped(p.domains.value);
      DomainsAgreeIff(p.domains.value, [OwnName(p.domains.value)] + p.domains.value);
    }
    if p.requestHeaders.Some? { RequestAgreesIs(p.requestHeaders.value, request); }
    if p.cache.Some? { IdealCacheAgrees(p.cache.value); }
    IdealSections(p.performance.GetOr(PerformanceSpec(None, None, None, None, None)),
        p.security.GetOr(SecuritySpec(None, None)), sec.tokenKey);
  }

  lemma IdealAgrees(p: Spec, sec: Secrets, request: map<string, string>)
    requires p.requestHeaders.Some? ==> request == HeaderMap(p.requestHeaders.value)
    ensures Agrees(p, IdealResource(p), IdealConfig(p, sec, request), sec)
  {
    hide OriginAgrees, ConfigAgrees, IdealConfig, LimitBytes, HeaderMap;
    if p.trafficLimitGB.Some? { OneLimit(p.trafficLimitGB.value, LimitBytes(p.trafficLimitGB.value)); }
    IdealOriginAgrees(p, sec, request);
    IdealConfigAgrees(p, sec, request);
  }

  /** Only the header section reads the observed request headers. */
  lemma OtherRequest(p: Spec, sec: Secrets, a: map<string, string>, b: map<string, string>)
    requires p.requestHeaders.Some? && RequestPatch(p.requestHeaders, a).None?
        && RequestPatch(p.requestHeaders, b).None?
    ensures Dirty(p, IdealResource(p), IdealConfig(p, sec, a), sec)
        == Dirty(p, IdealResource(p), IdealConfig(p, sec, b), sec)
  {
    hide CachePatch, DeliveryPatch, RobotsPatch, SecurityPatchOf, DomainsPatch, AwsPatch, CorsPatch, RequestPatch,
         IdealCache, IdealDelivery, IdealRobots, IdealSecurity, IdealOrigin, OwnName, EffectiveName, TrafficPatch,
             OriginPatch;
    var x, y := IdealConfig(p, sec, a), IdealConfig(p, sec, b);
    SameOrigin(p, IdealResource(p), x, y);
    assert ConfigPatchOf(p, x, sec) == ConfigPatchOf(p, y, sec);
  }

  lemma SameOrigin(p: Spec, res: Resource, x: Config, y: Config)
    requires x.origin == y.origin
    ensures OriginPatch(p, res, x) == OriginPatch(p, res, y)
  {
  }

  lemma NotAgreed(p: Spec, res: Resource, cfg: Config, sec: Secrets)
    requires p.requestHeaders.Some? && ObsHeaders(cfg).request != HeaderMap(p.requestHeaders.value)
    ensures !Agrees(p, res, cfg, sec)
  {
    hide RequestAgrees, HeaderMap, NameAgrees, OriginAgrees, TrafficAgrees, DomainsAgree, CacheAgrees, SecurityAgrees,
        DeliveryAgrees, RobotsAgrees, CorsAgrees;
    RequestAgreesIs(p.requestHeaders.value, ObsHeaders(cfg).request);
  }

  /**
   Nothing to write means every owned leaf has its declared value, whatever the upstream holds, exactly when no
   declared header is empty; agreement always means there is nothing to write.
   */
  lemma CleanMeansAgreementIff(p: Spec)
    ensures (forall res, cfg, sec :: !Dirty(p, res, cfg, sec) <==> Agrees(p, res, cfg, sec)) <==>
        HeadersFilled(p.requestHeaders)
    ensures forall res, cfg, sec :: Agrees(p, res, cfg, sec) ==> !Dirty(p, res, cfg, sec)
  {
    hide Dirty, Agrees;
    forall res, cfg, sec ensures Agrees(p, res, cfg, sec) ==> !Dirty(p, res, cfg, sec)
      ensures HeadersFilled(p.requestHeaders) ==> (!Dirty(p, res, cfg, sec) <==> Agrees(p, res, cfg, sec))
    {
      CleanWhenAgreed(p, res, cfg, sec);
    }
    if !HeadersFilled(p.requestHeaders) {
      var want := HeaderMap(p.requestHeaders.value);
      HeadersFilledIs(p.requestHeaders.value);
      MapsEqualExactIff(want);
      var b :| MapsEqual(want, b) && want != b;
      var sec := Secrets("", Aws("", ""));
      IdealAgrees(p, sec, want);
      OtherRequest(p, sec, want, b);
      assert ObsHeaders(IdealConfig(p, sec, b)).request == b;
      assert !Agrees(p, IdealResource(p), IdealConfig(p, sec, b), sec) by {
        NotAgreed(p, IdealResource(p), IdealConfig(p, sec, b), sec);
      }
    }
  }

  /** After one PATCH every declared leaf has its declared value, when the body could carry each drifted section. */
  lemma OnePatchAgrees(p: Spec, res: Resource, cfg: Config, sec: Secrets, echo: bool)
    requires Expressible(p, cfg) && HeadersFilled(p.requestHeaders)
    ensures var w := WriteOf(p, res, cfg, sec);
            Agrees(p, ApplyResource(res, w), ApplyWrite(cfg, w, echo), sec)
  {
    var w := WriteOf(p, res, cfg, sec);
    OnePatchConvergesIff(p, res, cfg, sec, echo);
    CleanWhenAgreed(p, ApplyResource(res, w), ApplyWrite(cfg, w, echo), sec);
  }

  /** Serving stale content, once declared, keeps the upstream's conditions, or starts with errors and timeouts. */
  lemma StaleConditionsKept(p: Spec, res: Resource, cfg: Config, sec: Secrets, echo: bool)
    requires p.cache.Some? && p.cache.value.alwaysOnline == Some(true)
    ensures ObsCache(ApplyWrite(cfg, WriteOf(p, res, cfg, sec), echo)).alwaysOnline ==
            if cfg.cache.Some? && cfg.cache.value.alwaysOnline.Some? then cfg.cache.value.alwaysOnline
            else Some(["error", "timeout"])
  {
    hide DeliveryPatch, HeadersPatchOf, SecurityPatchOf, DomainsPatch, RobotsPatch, AwsPatch, OriginPatch, TrafficPatch;
  }

  /** The byte limit is the declared number of gibibytes exactly below 2^33. */
  lemma LimitExactIff(gb: int)
    requires 0 <= gb < TWO_63
    ensures LimitBytes(gb) == gb * 0x4000_0000 <==> gb < 0x2_0000_0000
  {
  }

  // ---- ownership ------------------------------------------------------------------------

  /** A PATCH leaves every block the declaration omits, and the certificate slot, as they were. */
  lemma UndeclaredUntouched(p: Spec, res: Resource, cfg: Config, sec: Secrets, echo: bool)
    ensures var w := WriteOf(p, res, cfg, sec);
            var res', cfg' := ApplyResource(res, w), ApplyWrite(cfg, w, echo);
            && (p.cache.None? ==> cfg'.cache == cfg.cache)
            && (p.security.None? ==> cfg'.security == cfg.security)
            && (p.performance.None? ==> cfg'.delivery == cfg.delivery && cfg'.robots == cfg.robots)
            && (p.performance.Some? && p.performance.value.robots.None? ==> cfg'.robots == cfg.robots)
            && (p.cors.None? ==> ObsHeaders(cfg').cors == ObsHeaders(cfg).cors)
            && (p.requestHeaders.None? ==>
                  ObsHeaders(cfg').request == ObsHeaders(cfg).request)
            && (p.domains.None? ==> cfg'.aliases == cfg.aliases)
            && (!p.origin.awsAuth || p.origin.kind.Bucket? ==>
                  ObsOrigin(cfg').aws == ObsOrigin(cfg).aws)
            && (p.trafficLimitGB.None? ==> res'.trafficLimit == res.trafficLimit)
            && (p.projectID.None? ==> res'.projectID == res.projectID)
            && res'.suspended == res.suspended
            && ObsSecurity(cfg').certificateID == ObsSecurity(cfg).certificateID
  {
    hide Sort, MapsEqual, HeaderMap, LimitBytes, CacheSettled, DeliverySettled, CustomAliases, TechnicalAlias,
        OriginDrifted, ResolveOrigin;
  }

  // ---- the step-by-step builders compute that PATCH --------------------------------------

  method TechnicalAliasOf(aliases: seq<string>) returns (tech: string)
    ensures tech == TechnicalAlias(aliases)
  {
    for i := 0 to |aliases|
      invariant TechnicalAlias(aliases) == TechnicalAlias(aliases[i..])
    {
      if HasSuffix(aliases[i], TECHNICAL_SUFFIX) { return aliases[i]; }
    }
    return "";
  }

  lemma WithoutAppend(s: seq<string>, x: string, drop: string)
    ensures Without(s + [x], drop) == Without(s, drop) + if x == drop then [] else [x]
  {
    if |s| > 0 {
      assert (s + [x])[1..] == s[1..] + [x];
      WithoutAppend(s[1..], x, drop);
    }
  }

  method CustomAliasesOf(cfg: Config) returns (out: seq<string>)
    ensures out == CustomAliases(AliasesOf(cfg))
  {
    var aliases := AliasesOf(cfg);
    var tech := TechnicalAliasOf(aliases);
    out := [];
    for i := 0 to |aliases|
      invariant out == Without(aliases[..i], tech)
    {
      WithoutAppend(aliases[..i], aliases[i], tech);
      assert aliases[..i + 1] == aliases[..i] + [aliases[i]];
      if aliases[i] != tech { out := out + [aliases[i]]; }
    }
    assert aliases[..|aliases|] == aliases;
  }

  /** LE issuance waits for every declared domain to be an alias. */
  predicate DomainsAttached(domains: seq<string>, cfg: Config) {
    forall d | d in domains :: d in AliasesOf(cfg)
  }

  method DomainsAttachedCheck(domains: seq<string>, cfg: Config) returns (attached: bool)
    ensures attached == DomainsAttached(domains, cfg)
  {
    var have := set a | a in AliasesOf(cfg);
    for i := 0 to |domains|
      invariant forall j | 0 <= j < i :: domains[j] in AliasesOf(cfg)
    {
      if domains[i] !in have { return false; }
    }
    return true;
  }

  method MapsEqualCheck(a: map<string, string>, b: map<string, string>) returns (equal: bool)
    ensures equal == MapsEqual(a, b)
  {
    if |a| != |b| { return false; }
    var rest := a.Keys;
    while rest != {}
      invariant rest <= a.Keys
      invariant forall k | k in a && k !in rest :: ZeroLookup(b, k) == a[k]
      decreases |rest|
    {
      var k :| k in rest;
      if ZeroLookup(b, k) != a[k] { return false; }
      rest := rest - {k};
    }
    return true;
  }

  method DesiredDelivery(perf: PerformanceSpec, obs: Option<Delivery>) returns (d: Option<Delivery>)
    ensures d == DeliveryPatch(Some(perf), obs.GetOr(NO_DELIVERY))
  {
    var o := obs.GetOr(NO_DELIVERY);
    if DeliverySettled(perf, o) { return None; }
    var mode := ContentMode(perf);
    var patch := Delivery(Some(perf.http3.GetOr(false)), Some(perf.gzip.GetOr(false)), Some(perf.sliceMB.Some?),
                          None, Some(mode == "images"), None);
    if perf.sliceMB.Some? { patch := patch.(sliceSize := perf.sliceMB); }
    if (mode == "video") != o.mp4.GetOr(false) { patch := patch.(mp4 := Some(mode == "video")); }
    return Some(patch);
  }

  method DesiredHTTPHeaders(p: Spec, cfg: Config) returns (out: Option<HeadersPatch>)
    ensures out == HeadersPatchOf(p.requestHeaders, p.cors, ObsHeaders(cfg))
  {
    var patch, dirty := HeadersPatch(None, None), false;
    if p.requestHeaders.Some? {
      var hs, want := p.requestHeaders.value, map[];
      for i := 0 to |hs|
        invariant want == HeaderMap(hs[..i])
      {
        assert hs[..i + 1][..i] == hs[..i];
        want := want[hs[i].name := hs[i].value];
      }
      assert hs[..|hs|] == hs;
      var equal := MapsEqualCheck(want, ObsHeaders(cfg).request);
      if !equal { patch, dirty := patch.(request := Some(want)), true; }
    }
    if p.cors.Some? {
      var obs := ObsHeaders(cfg).cors.GetOr(NO_CORS);
      var want, always := Sort(p.cors.value.origins), p.cors.value.always.GetOr(false);
      if want != Sort(obs.domains) || always != obs.always.GetOr(false) {
        patch, dirty := patch.(cors := Some(Cors(want, Some(always)))), true;
      }
    }
    return if dirty then Some(patch) else None;
  }

  method DesiredSecurity(sec: Option<SecuritySpec>, obs: Security, tokenKey: string)
    returns (out: Option<SecurityPatch>)
    ensures out == SecurityPatchOf(sec, obs, tokenKey)
  {
    if sec.None? { return None; }
    var want, patch, dirty := sec.value, SecurityPatch(None, None, None), false;
    if want.forceHTTPS.GetOr(false) != obs.redirect.GetOr(false) {
      patch, dirty := patch.(redirect := Some(want.forceHTTPS.GetOr(false))), true;
    }
    if want.token.Some? {
      var restrict := want.token.value.restrictByIP.GetOr(false);
      var matches := obs.token.Some? && obs.token.value.restrictByIP == restrict &&
                     (obs.token.value.secretKey == "" || obs.token.value.secretKey == tokenKey);
      if !matches { patch, dirty := patch.(token := Some(Some(Token(tokenKey, restrict)))), true; }
    } else if obs.token.Some? {
      patch, dirty := patch.(token := Some(None)), true;
    }
    return if dirty then Some(patch) else None;
  }

  method DesiredDomains(domains: Option<seq<string>>, cfg: Config) returns (out: Option<seq<string>>)
    ensures out == DomainsPatch(domains, AliasesOf(cfg))
  {
    if domains.None? { return None; }
    var customs := CustomAliasesOf(cfg);
    return if Sort(domains.value) == Sort(customs) then None else Some(Sort(domains.value));
  }

  method DesiredCache(c: CacheSpec, obs: Option<Cache>) returns (out: Option<Cache>)
    ensures out == CachePatch(Some(c), obs.GetOr(NO_CACHE))
  {
    var wantEdge, wantBrowser, wantOnline := c.edgeTTL.GetOr(0), c.browserTTL.GetOr(0), c.alwaysOnline.GetOr(false);
    var wantArgs := DesiredQueryArgs(c);
    var obsEdge, obsBrowser, obsOnline, obsArgs := 0, 0, false, None;
    if obs.Some? {
      obsEdge, obsBrowser := Ttl(obs.value.cdn), obs.value.browser.GetOr(0);
      obsOnline, obsArgs := obs.value.alwaysOnline.Some?, obs.value.queryArgs;
    }
    if wantEdge == obsEdge && wantBrowser == obsBrowser && wantOnline == obsOnline
        && QueryArgsEqual(wantArgs, obsArgs) {
      return None;
    }
    var patch := Cache(None, None, None, wantArgs);
    if wantEdge > 0 { patch := patch.(cdn := Some(map["2xx" := wantEdge])); }
    if wantBrowser > 0 { patch := patch.(browser := Some(wantBrowser)); }
    if wantOnline {
      patch := patch.(alwaysOnline := Some(DEFAULT_STALE));
      if obs.Some? && obs.value.alwaysOnline.Some? { patch := patch.(alwaysOnline := obs.value.alwaysOnline); }
    }
    return Some(patch);
  }

  method DesiredRobots(r: RobotsSpec, obs: Option<Robots>) returns (out: Option<Robots>)
    ensures forall perf: PerformanceSpec | perf.robots == Some(r) ::
        out == RobotsPatch(Some(perf), obs.GetOr(NO_ROBOTS))
  {
    var wantContent := r.custom.GetOr("");
    var obsType, obsContent := "", "";
    if obs.Some? { obsType, obsContent := obs.value.typ.GetOr(""), obs.value.content.GetOr(""); }
    if r.mode == obsType && wantContent == obsContent { return None; }
    var patch := Robots(Some(r.mode), None);
    if r.mode == "custom" { patch := patch.(content := Some(wantContent)); }
    return Some(patch);
  }

  method DesiredAws(p: Spec, obs: Option<Origin>, aws: Aws) returns (out: Option<Aws>)
    ensures out == AwsPatch(p.origin, obs.GetOr(NO_ORIGIN).aws, aws)
  {
    if !p.origin.awsAuth || p.origin.kind.Bucket? { return None; }
    var matches := obs.Some? && obs.value.aws.Some? &&
                   obs.value.aws.value.accessKey == aws.accessKey && obs.value.aws.value.secretKey == aws.secretKey;
    return if matches then None else Some(aws);
  }

  /** Section by section; the flag is raised by the section that writes. */
  method DesiredConfig(p: Spec, cfg: Config, sec: Secrets) returns (out: Option<ConfigPatch>)
    ensures var c := ConfigPatchOf(p, cfg, sec); out == if c == EMPTY_CONFIG_PATCH then None else Some(c)
  {
    hide HeadersPatchOf, SecurityPatchOf, DeliveryPatch, CachePatch, DomainsPatch, RobotsPatch, AwsPatch;
    ghost var c := ConfigPatchOf(p, cfg, sec);
    NoSections(ObsCache(cfg), ObsDelivery(cfg), ObsRobots(cfg));
    var patch, dirty := EMPTY_CONFIG_PATCH, false;
    var aliases := DesiredDomains(p.domains, cfg);
    if aliases.Some? { patch, dirty := patch.(aliases := aliases), true; }
    var aws := DesiredAws(p, cfg.origin, sec.aws);
    if aws.Some? { patch, dirty := patch.(aws := aws), true; }
    assert patch == EMPTY_CONFIG_PATCH.(aliases := c.aliases, aws := c.aws)
        && (dirty <==> c.aliases.Some? || c.aws.Some?);
    if p.cache.Some? {
      var cache := DesiredCache(p.cache.value, cfg.cache);
      if cache.Some? { patch, dirty := patch.(cache := cache), true; }
    }
    var security := DesiredSecurity(p.security, ObsSecurity(cfg), sec.tokenKey);
    if security.Some? { patch, dirty := patch.(security := security), true; }
    assert patch == EMPTY_CONFIG_PATCH.(aliases := c.aliases, aws := c.aws, cache := c.cache, security := c.security);
    assert dirty <==> c.aliases.Some? || c.aws.Some? || c.cache.Some? || c.security.Some?;
    if p.performance.Some? {
      var d := DesiredDelivery(p.performance.value, cfg.delivery);
      if d.Some? { patch, dirty := patch.(delivery := d), true; }
      if p.performance.value.robots.Some? {
        var robots := DesiredRobots(p.performance.value.robots.value, cfg.robots);
        if robots.Some? { patch, dirty := patch.(robots := robots), true; }
      } else {
        NoRobots(p.performance.value, ObsRobots(cfg));
      }
    }
    assert patch == c.(headers := None) && (dirty <==> c.(headers := None) != EMPTY_CONFIG_PATCH);
    var headers := DesiredHTTPHeaders(p, cfg);
    if headers.Some? { patch, dirty := patch.(headers := headers), true; }
    return if dirty then Some(patch) else None;
  }

  lemma NoSections(cache: Cache, delivery: Delivery, robots: Robots)
    ensures CachePatch(None, cache).None? && DeliveryPatch(None, delivery).None? && RobotsPatch(None, robots).None?
  {
  }

  lemma NoRobots(perf: PerformanceSpec, robots: Robots)
    requires perf.robots.None?
    ensures RobotsPatch(Some(perf), robots).None?
  {
  }

  method BuildDesiredWrite(p: Spec, res: Resource, cfg: Config, sec: Secrets) returns (w: ResourceWrite, dirty: bool)
    ensures w == WriteOf(p, res, cfg, sec)
    ensures dirty == Dirty(p, res, cfg, sec)
  {
    hide ConfigPatchOf, ResolveOrigin, OriginDrifted, LimitBytes, EffectiveName;
    w, dirty := EMPTY_WRITE, false;
    var name := EffectiveName(p);
    if res.name != name { w, dirty := w.(name := Some(name)), true; }
    var description := p.description.GetOr("");
    if res.description != description { w, dirty := w.(description := Some(description)), true; }
    if p.projectID.Some? && p.projectID.value != res.projectID { w, dirty := w.(projectID := p.projectID), true; }
    if !p.deleting {
      var origin := ResolveOrigin(p.origin);
      if origin.Some? && OriginDrifted(origin.value, res, cfg) {
        w, dirty := w.(server := origin.value.server, storageID := origin.value.storageID), true;
        w := w.(useHttps := Some(origin.value.useHttps));
      }
    }
    if p.trafficLimitGB.Some? {
      if p.trafficLimitGB.value == 0 {
        if res.trafficLimit.Some? { w, dirty := w.(trafficLimit := Some(None)), true; }
      } else {
        var want := LimitBytes(p.trafficLimitGB.value);
        if res.trafficLimit.None? || res.trafficLimit.value != want {
          w, dirty := w.(trafficLimit := Some(Some(want))), true;
        }
      }
    }
    var c := DesiredConfig(p, cfg, sec);
    if c.Some? { w, dirty := w.(config := c), true; }
  }
}
