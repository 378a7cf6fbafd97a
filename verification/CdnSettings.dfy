/**
 The settings half of the CDN reconciler: the declared blocks, the observed resource and
 configuration, the minimal PATCH between them, and what the upstream does with that PATCH.
 */
module CdnSettings {
  import opened Wrappers
  import opened Text

  // ---- upstream shapes -----------------------------------------------------------

  datatype Server = Server(host: string, port: int)
  datatype Aws = Aws(accessKey: string, secretKey: string)
  datatype QueryArgs = QueryArgs(mode: string, list: seq<string>)
  /** `cdn` is the TTL per status class, `alwaysOnline` the stale conditions. */
  datatype Cache = Cache(cdn: Option<map<string, int>>, browser: Option<int>,
                         alwaysOnline: Option<seq<string>>, queryArgs: Option<QueryArgs>)
  /** `mp4` is the packaging object: absent, explicitly null (false) or present (true). */
  datatype Delivery = Delivery(http3: Option<bool>, gzip: Option<bool>, largeFiles: Option<bool>,
                               sliceSize: Option<int>, imageOptimization: Option<bool>, mp4: Option<bool>)
  datatype Cors = Cors(domains: seq<string>, always: Option<bool>)
  datatype Headers = Headers(request: map<string, string>, cors: Option<Cors>)
  datatype Robots = Robots(typ: Option<string>, content: Option<string>)
  datatype Token = Token(secretKey: string, restrictByIP: bool)
  datatype Security = Security(redirect: Option<bool>, certificateID: Option<int>, token: Option<Token>)
  datatype Origin = Origin(servers: seq<Server>, useHttps: Option<bool>, aws: Option<Aws>)
  datatype Config = Config(cache: Option<Cache>, delivery: Option<Delivery>, headers: Option<Headers>,
                           robots: Option<Robots>, security: Option<Security>,
                           aliases: Option<seq<string>>, origin: Option<Origin>)
  datatype Resource = Resource(name: string, description: string, suspended: bool, projectID: int,
                               storageID: Option<int>, trafficLimit: Option<int>)

  /** The PATCH body. `None` is an omitted key; `Some(None)` is an explicit null. */
  datatype HeadersPatch = HeadersPatch(request: Option<map<string, string>>, cors: Option<Cors>)
  datatype SecurityPatch = SecurityPatch(redirect: Option<bool>, certificateID: Option<Option<int>>,
                                         token: Option<Option<Token>>)
  datatype ConfigPatch = ConfigPatch(cache: Option<Cache>, delivery: Option<Delivery>,
                                     headers: Option<HeadersPatch>, robots: Option<Robots>,
                                     security: Option<SecurityPatch>, aliases: Option<seq<string>>,
                                     aws: Option<Aws>)
  datatype ResourceWrite = ResourceWrite(name: Option<string>, description: Option<string>,
                                         projectID: Option<int>, server: Option<Server>,
                                         storageID: Option<int>, useHttps: Option<bool>,
                                         trafficLimit: Option<Option<int>>, config: Option<ConfigPatch>)

  const EMPTY_CONFIG_PATCH := ConfigPatch(None, None, None, None, None, None, None)
  const EMPTY_WRITE := ResourceWrite(None, None, None, None, None, None, None, None)

  // ---- declaration ---------------------------------------------------------------

  datatype CacheSpec = CacheSpec(edgeTTL: Option<int>, browserTTL: Option<int>, alwaysOnline: Option<bool>,
                                 queryMode: Option<string>, queryParams: seq<string>)
  datatype TokenSpec = TokenSpec(restrictByIP: Option<bool>)
  datatype SecuritySpec = SecuritySpec(forceHTTPS: Option<bool>, token: Option<TokenSpec>)
  datatype RobotsSpec = RobotsSpec(mode: string, custom: Option<string>)
  datatype PerformanceSpec = PerformanceSpec(http3: Option<bool>, gzip: Option<bool>, sliceMB: Option<int>,
                                             contentOptimization: Option<string>, robots: Option<RobotsSpec>)
  datatype CorsSpec = CorsSpec(origins: seq<string>, always: Option<bool>)
  datatype HeaderSpec = HeaderSpec(name: string, value: string)
  /** `Bucket(None)` is a referenced bucket that is missing or not Ready. */
  datatype OriginKind = Bucket(storageID: Option<int>) | Host(host: string) | NoOrigin
  datatype OriginSpec = OriginSpec(kind: OriginKind, https: Option<bool>, port: Option<int>, awsAuth: bool)
  datatype Spec = Spec(objectName: string, name: Option<string>, description: Option<string>,
                       projectID: Option<int>, origin: OriginSpec, trafficLimitGB: Option<int>,
                       domains: Option<seq<string>>, cache: Option<CacheSpec>, security: Option<SecuritySpec>,
                       performance: Option<PerformanceSpec>, cors: Option<CorsSpec>,
                       requestHeaders: Option<seq<HeaderSpec>>, deleting: bool)
  /** Secret values resolved for this pass. */
  datatype Secrets = Secrets(tokenKey: string, aws: Aws)

  // ---- small helpers ---------------------------------------------------------------

  function EffectiveName(p: Spec): string {
    if p.name.Some? && p.name.value != "" then p.name.value else p.objectName
  }

  datatype ResolvedOrigin = ResolvedOrigin(server: Option<Server>, storageID: Option<int>, useHttps: bool)

  function OriginPort(o: OriginSpec, https: bool): int {
    if o.port.Some? then o.port.value else if https then 443 else 80
  }

  /** None when the referenced bucket cannot be resolved yet. */
  function ResolveOrigin(o: OriginSpec): Option<ResolvedOrigin> {
    var https := o.https.GetOr(true);
    match o.kind
    case Bucket(None) => None
    case Bucket(Some(id)) => Some(ResolvedOrigin(None, Some(id), https))
    case Host(h) => Some(ResolvedOrigin(Some(Server(h, OriginPort(o, https))), None, https))
    case NoOrigin => Some(ResolvedOrigin(None, None, https))
  }

  predicate OriginDrifted(want: ResolvedOrigin, res: Resource, cfg: Config) {
    var obsHttps := cfg.origin.None? || cfg.origin.value.useHttps.GetOr(true);
    if want.useHttps != obsHttps then true
    else if want.storageID.Some? then res.storageID != want.storageID
    else if want.server.Some? then
      || res.storageID.Some?
      || cfg.origin.None? || |cfg.origin.value.servers| == 0
      || cfg.origin.value.servers[0] != want.server.value
    else false
  }

  const TECHNICAL_SUFFIX := ".cdn.twcstorage.ru"

  function AliasesOf(cfg: Config): seq<string> {
    cfg.aliases.GetOr([])
  }

  /** The first alias under the upstream's own domain, "" when there is none. */
  function TechnicalAlias(aliases: seq<string>): string {
    if |aliases| == 0 then ""
    else if HasSuffix(aliases[0], TECHNICAL_SUFFIX) then aliases[0]
    else TechnicalAlias(aliases[1..])
  }

  lemma {:induction false} WithoutCounts(aliases: seq<string>, drop: string)
    ensures forall x :: multiset(Without(aliases, drop))[x] == if x == drop then 0 else multiset(aliases)[x]
  {
    if |aliases| > 0 {
      WithoutCounts(aliases[1..], drop);
      TailMultiset(aliases);
    }
  }

  function CustomAliases(aliases: seq<string>): seq<string> {
    Without(aliases, TechnicalAlias(aliases))
  }

  function Ttl(t: Option<map<string, int>>): int {
    if t.Some? && "2xx" in t.value then t.value["2xx"] else 0
  }

  /** The declared headers as a map; a repeated name keeps its last value. */
  function HeaderMap(hs: seq<HeaderSpec>): map<string, string> {
    if |hs| == 0 then map[]
    else HeaderMap(hs[..|hs| - 1])[hs[|hs| - 1].name := hs[|hs| - 1].value]
  }

  /** `b[k]` in Go: the empty string for an absent key. */
  function ZeroLookup(b: map<string, string>, k: string): string {
    if k in b then b[k] else ""
  }

  predicate MapsEqual(a: map<string, string>, b: map<string, string>) {
    |a| == |b| && forall k | k in a :: ZeroLookup(b, k) == a[k]
  }

  const TWO_63 := 0x8000_0000_0000_0000

  /** The value an int64 holds after an overflowing operation. */
  function Wrap64(n: int): int {
    (n + TWO_63) % (2 * TWO_63) - TWO_63
  }

  function LimitBytes(gb: int): int {
    Wrap64(gb * 0x4000_0000)
  }

  // ---- section differences ------------------------------------------------------------

  function DomainsPatch(domains: Option<seq<string>>, aliases: seq<string>): Option<seq<string>> {
    if domains.None? || Sort(domains.value) == Sort(CustomAliases(aliases)) then None
    else Some(Sort(domains.value))
  }

  function AwsPatch(o: OriginSpec, obs: Option<Aws>, aws: Aws): Option<Aws> {
    if !o.awsAuth || o.kind.Bucket? || obs == Some(aws) then None
    else Some(aws)
  }

  function DesiredQueryArgs(c: CacheSpec): Option<QueryArgs> {
    if c.queryMode.None? then None
    else Some(QueryArgs(c.queryMode.value, if c.queryMode.value == "all" then [] else Sort(c.queryParams)))
  }

  predicate QueryArgsEqual(a: Option<QueryArgs>, b: Option<QueryArgs>) {
    if a.Some? && b.Some? then a.value.mode == b.value.mode && a.value.list == Sort(b.value.list)
    else a.None? && b.None?
  }

  const NO_CACHE := Cache(None, None, None, None)
  const DEFAULT_STALE: seq<string> := ["error", "timeout"]

  predicate CacheSettled(c: CacheSpec, obs: Cache) {
    && c.edgeTTL.GetOr(0) == Ttl(obs.cdn)
    && c.browserTTL.GetOr(0) == obs.browser.GetOr(0)
    && c.alwaysOnline.GetOr(false) == obs.alwaysOnline.Some?
    && QueryArgsEqual(DesiredQueryArgs(c), obs.queryArgs)
  }

  function CachePatch(cache: Option<CacheSpec>, obs: Cache): Option<Cache> {
    if cache.None? || CacheSettled(cache.value, obs) then None
    else
      var c := cache.value;
      Some(Cache(
        if c.edgeTTL.GetOr(0) > 0 then Some(map["2xx" := c.edgeTTL.value]) else None,
        if c.browserTTL.GetOr(0) > 0 then c.browserTTL else None,
        if !c.alwaysOnline.GetOr(false) then None else Some(obs.alwaysOnline.GetOr(DEFAULT_STALE)),
        DesiredQueryArgs(c)))
  }

  const NO_SECURITY := Security(None, None, None)

  function SecurityPatchOf(sec: Option<SecuritySpec>, obs: Security, tokenKey: string): Option<SecurityPatch> {
    if sec.None? then None
    else
      var s := sec.value;
      var redirect := if s.forceHTTPS.GetOr(false) != obs.redirect.GetOr(false)
                      then Some(s.forceHTTPS.GetOr(false)) else None;
      var token :=
        if s.token.Some? then
          var restrict := s.token.value.restrictByIP.GetOr(false);
          if obs.token.Some? && obs.token.value.restrictByIP == restrict &&
             (obs.token.value.secretKey == "" || obs.token.value.secretKey == tokenKey)
          then None else Some(Some(Token(tokenKey, restrict)))
        else if obs.token.Some? then Some(None)
        else None;
      if redirect.None? && token.None? then None else Some(SecurityPatch(redirect, None, token))
  }

  const NO_DELIVERY := Delivery(None, None, None, None, None, None)

  function ContentMode(perf: PerformanceSpec): string {
    if perf.contentOptimization.GetOr("") == "" then "off" else perf.contentOptimization.value
  }

  predicate DeliverySettled(perf: PerformanceSpec, obs: Delivery) {
    && perf.http3.GetOr(false) == obs.http3.GetOr(false)
    && perf.gzip.GetOr(false) == obs.gzip.GetOr(false)
    && perf.sliceMB.Some? == obs.largeFiles.GetOr(false)
    && (perf.sliceMB.Some? ==> perf.sliceMB.value == obs.sliceSize.GetOr(0))
    && (ContentMode(perf) == "images") == obs.imageOptimization.GetOr(false)
    && (ContentMode(perf) == "video") == obs.mp4.GetOr(false)
  }

  function DeliveryPatch(perf: Option<PerformanceSpec>, obs: Delivery): Option<Delivery> {
    if perf.None? || DeliverySettled(perf.value, obs) then None
    else
      var p := perf.value;
      var wantMP4 := ContentMode(p) == "video";
      Some(Delivery(Some(p.http3.GetOr(false)), Some(p.gzip.GetOr(false)), Some(p.sliceMB.Some?), p.sliceMB,
                    Some(ContentMode(p) == "images"),
                    if wantMP4 != obs.mp4.GetOr(false) then Some(wantMP4) else None))
  }

  const NO_ROBOTS := Robots(None, None)

  function RobotsPatch(perf: Option<PerformanceSpec>, obs: Robots): Option<Robots> {
    if perf.None? || perf.value.robots.None? then None
    else
      var r := perf.value.robots.value;
      if r.mode == obs.typ.GetOr("") && r.custom.GetOr("") == obs.content.GetOr("") then None
      else Some(Robots(Some(r.mode), if r.mode == "custom" then Some(r.custom.GetOr("")) else None))
  }

  const NO_HEADERS := Headers(map[], None)
  const NO_ORIGIN := Origin([], None, None)

  function RequestPatch(hs: Option<seq<HeaderSpec>>, obs: map<string, string>): Option<map<string, string>> {
    if hs.None? || MapsEqual(HeaderMap(hs.value), obs) then None
    else Some(HeaderMap(hs.value))
  }

  const NO_CORS := Cors([], None)

  function CorsPatch(cors: Option<CorsSpec>, obs: Cors): Option<Cors> {
    if cors.None? then None
    else
      var c := cors.value;
      if Sort(c.origins) == Sort(obs.domains) && c.always.GetOr(false) == obs.always.GetOr(false) then None
      else Some(Cors(Sort(c.origins), Some(c.always.GetOr(false))))
  }

  function HeadersPatchOf(hs: Option<seq<HeaderSpec>>, cors: Option<CorsSpec>, obs: Headers): Option<HeadersPatch> {
    var request, cors := RequestPatch(hs, obs.request), CorsPatch(cors, obs.cors.GetOr(NO_CORS));
    if request.None? && cors.None? then None else Some(HeadersPatch(request, cors))
  }

  // An absent section reads like one with every feature off.
  function ObsCache(cfg: Config): Cache { cfg.cache.GetOr(NO_CACHE) }
  function ObsDelivery(cfg: Config): Delivery { cfg.delivery.GetOr(NO_DELIVERY) }
  function ObsHeaders(cfg: Config): Headers { cfg.headers.GetOr(NO_HEADERS) }
  function ObsRobots(cfg: Config): Robots { cfg.robots.GetOr(NO_ROBOTS) }
  function ObsSecurity(cfg: Config): Security { cfg.security.GetOr(NO_SECURITY) }
  function ObsOrigin(cfg: Config): Origin { cfg.origin.GetOr(NO_ORIGIN) }

  function ConfigPatchOf(p: Spec, cfg: Config, sec: Secrets): ConfigPatch {
    ConfigPatch(CachePatch(p.cache, ObsCache(cfg)), DeliveryPatch(p.performance, ObsDelivery(cfg)),
                HeadersPatchOf(p.requestHeaders, p.cors, ObsHeaders(cfg)), RobotsPatch(p.performance, ObsRobots(cfg)),
                SecurityPatchOf(p.security, ObsSecurity(cfg), sec.tokenKey), DomainsPatch(p.domains, AliasesOf(cfg)),
                AwsPatch(p.origin, ObsOrigin(cfg).aws, sec.aws))
  }

  function TrafficPatch(gb: Option<int>, res: Resource): Option<Option<int>> {
    if gb.None? then None
    else if gb.value == 0 then (if res.trafficLimit.Some? then Some(None) else None)
    else if res.trafficLimit == Some(LimitBytes(gb.value)) then None
    else Some(Some(LimitBytes(gb.value)))
  }

  /** The drifted origin to write, when it resolves and the object is not being deleted. */
  function OriginPatch(p: Spec, res: Resource, cfg: Config): Option<ResolvedOrigin> {
    var origin := ResolveOrigin(p.origin);
    if !p.deleting && origin.Some? && OriginDrifted(origin.value, res, cfg) then origin else None
  }

  /** The minimal PATCH as one expression; equal to EMPTY_WRITE exactly when nothing drifted. */
  function WriteOf(p: Spec, res: Resource, cfg: Config, sec: Secrets): ResourceWrite {
    var origin := OriginPatch(p, res, cfg);
    var c := ConfigPatchOf(p, cfg, sec);
    ResourceWrite(
      if res.name != EffectiveName(p) then Some(EffectiveName(p)) else None,
      if res.description != p.description.GetOr("") then Some(p.description.GetOr("")) else None,
      if p.projectID.Some? && p.projectID.value != res.projectID then p.projectID else None,
      if origin.Some? then origin.value.server else None,
      if origin.Some? then origin.value.storageID else None,
      if origin.Some? then Some(origin.value.useHttps) else None,
      TrafficPatch(p.trafficLimitGB, res),
      if c == EMPTY_CONFIG_PATCH then None else Some(c))
  }

  predicate Dirty(p: Spec, res: Resource, cfg: Config, sec: Secrets) {
    WriteOf(p, res, cfg, sec) != EMPTY_WRITE
  }

  // ---- what the upstream does with a PATCH -----------------------------------------------

  function Over<T>(patch: Option<T>, prior: Option<T>): Option<T> {
    if patch.Some? then patch else prior
  }

  /** Delivery, security and header keys are partial; an omitted key keeps its value. */
  function ApplyDelivery(d: Delivery, patch: Delivery): Delivery {
    Delivery(Over(patch.http3, d.http3), Over(patch.gzip, d.gzip), Over(patch.largeFiles, d.largeFiles),
             Over(patch.sliceSize, d.sliceSize), Over(patch.imageOptimization, d.imageOptimization),
             Over(patch.mp4, d.mp4))
  }

  /** `echo` says whether the readback shows the stored token key or hides it. */
  function ApplySecurity(s: Security, patch: SecurityPatch, echo: bool): Security {
    Security(Over(patch.redirect, s.redirect),
             if patch.certificateID.Some? then patch.certificateID.value else s.certificateID,
             if patch.token.None? then s.token
             else if patch.token.value.None? then None
             else Some(Token(if echo then patch.token.value.value.secretKey else "",
                             patch.token.value.value.restrictByIP)))
  }

  /** Empty maps and lists are dropped from the body, so they change nothing upstream. */
  function ApplyHeaders(h: Headers, patch: HeadersPatch): Headers {
    Headers(if patch.request.Some? && patch.request.value != map[] then patch.request.value else h.request,
            if patch.cors.None? then h.cors
            else Some(Cors(if patch.cors.value.domains == [] then h.cors.GetOr(NO_CORS).domains
                           else patch.cors.value.domains,
                           patch.cors.value.always)))
  }

  /** The upstream keeps its technical domain and replaces the custom ones. */
  function ApplyAliases(aliases: seq<string>, patch: seq<string>): seq<string> {
    if patch == [] then aliases
    else (if TechnicalAlias(aliases) == "" then [] else [TechnicalAlias(aliases)]) + patch
  }

  function ApplyConfig(cfg: Config, patch: ConfigPatch, echo: bool): Config {
    Config(
      Over(patch.cache, cfg.cache),
      if patch.delivery.None? then cfg.delivery
      else Some(ApplyDelivery(ObsDelivery(cfg), patch.delivery.value)),
      if patch.headers.None? then cfg.headers
      else Some(ApplyHeaders(ObsHeaders(cfg), patch.headers.value)),
      Over(patch.robots, cfg.robots),
      if patch.security.None? then cfg.security
      else Some(ApplySecurity(ObsSecurity(cfg), patch.security.value, echo)),
      if patch.aliases.None? then cfg.aliases
      else Some(ApplyAliases(AliasesOf(cfg), patch.aliases.value)),
      if patch.aws.None? then cfg.origin
      else Some(ObsOrigin(cfg).(aws := patch.aws)))
  }

  /** A server origin releases the storage binding; a storage origin sets it. */
  function ApplyResource(res: Resource, w: ResourceWrite): Resource {
    res.(name := w.name.GetOr(res.name),
         description := w.description.GetOr(res.description),
         projectID := w.projectID.GetOr(res.projectID),
         storageID := if w.storageID.Some? then w.storageID else if w.server.Some? then None else res.storageID,
         trafficLimit := w.trafficLimit.GetOr(res.trafficLimit))
  }

  function ApplyOrigin(cfg: Config, w: ResourceWrite): Config {
    if w.server.None? && w.useHttps.None? then cfg
    else
      var o := ObsOrigin(cfg);
      cfg.(origin := Some(o.(servers := if w.server.Some? then [w.server.value] else o.servers,
                             useHttps := Over(w.useHttps, o.useHttps))))
  }

  function ApplyWrite(cfg: Config, w: ResourceWrite, echo: bool): Config {
    ApplyOrigin(if w.config.Some? then ApplyConfig(cfg, w.config.value, echo) else cfg, w)
  }
}
