/** The gates a request passes (internal/server/middleware/edge.go, concurrency.go), as handlers. */
module Gates {
  import opened Strings
  import RateLimit

  /** A network, as the set of addresses it contains. */
  type Net = nat -> bool

  /** What the gates look at. `ip` is None when the peer address does not parse. */
  datatype Request = Request(tls: bool, peer: string, ip: Option<nat>, options: bool, origin: string)

  datatype Cors = Cors(allowAll: bool, origins: set<string>)

  datatype Layer =
    | ForceHTTPS
    | IPFilter(allow: seq<Net>, deny: seq<Net>)
    | RateLimiting(limits: RateLimit.Limits)
    | BodyLimit(max: int)
    | CORS(cfg: Cors)
    | SecurityHeaders
    | Concurrency(maxConcurrent: nat)
    | Gzip
    | Logging
    | Custom(stops: Request -> bool)

  datatype Handler = Site(kind: SiteKind) | Wrap(layer: Layer, next: Handler)
  datatype SiteKind = LoadBalanced(targets: seq<string>) | Proxied(target: string) | Static(root: string)

  /** The layers around a handler, the first one outermost. */
  function Chain(layers: seq<Layer>, h: Handler): Handler {
    if layers == [] then h else Wrap(layers[0], Chain(layers[1..], h))
  }

  lemma {:induction false} ChainConcat(a: seq<Layer>, b: seq<Layer>, h: Handler)
    ensures Chain(a + b, h) == Chain(a, Chain(b, h))
  {
    if a == [] {
      assert a + b == b;
    } else {
      assert (a + b)[1..] == a[1..] + b;
      ChainConcat(a[1..], b, h);
    }
  }

  /** Library calls: net.ParseIP, telling IPv4 from IPv6, and net.ParseCIDR. */
  datatype NetLibrary = NetLibrary(parseIP: string -> Option<bool>, parseCIDR: string -> Option<Net>)

  predicate IsSpace(c: char) {
    c == ' ' || '\t' <= c <= '\r'
  }

  function TrimSpace(s: string): string {
    if s != "" && IsSpace(s[0]) then TrimSpace(s[1..])
    else if s != "" && IsSpace(s[|s| - 1]) then TrimSpace(s[..|s| - 1])
    else s
  }

  /** One item of a configured list: a CIDR or a bare address; None when it is dropped. */
  function ReadItem(lib: NetLibrary, item: string): Option<Net> {
    var s := TrimSpace(item);
    if s == "" then None
    else if '/' in s then lib.parseCIDR(s)
    else
      match lib.parseIP(s)
      case None => lib.parseCIDR(s)
      case Some(is4) => lib.parseCIDR(s + if is4 then "/32" else "/128")
  }

  function Parsed(lib: NetLibrary, list: seq<string>): seq<Net> {
    if list == [] then []
    else
      Parsed(lib, list[..|list| - 1]) +
      match ReadItem(lib, list[|list| - 1]) case Some(n) => [n] case None => []
  }

  method ParseCIDRs(lib: NetLibrary, list: seq<string>) returns (nets: seq<Net>)
    ensures nets == Parsed(lib, list)
  {
    nets := [];
    for i := 0 to |list|
      invariant nets == Parsed(lib, list[..i])
    {
      assert list[..i + 1][..i] == list[..i];
      var item := TrimSpace(list[i]);
      if item != "" {
        if '/' !in item {
          var ip := lib.parseIP(item);
          if ip.Some? {
            item := item + if ip.value then "/32" else "/128";
          }
        }
        var n := lib.parseCIDR(item);
        if n.Some? {
          nets := nets + [n.value];
        }
      }
    }
    assert list[..|list|] == list;
  }

  /** Is the address in a network that the list names? */
  ghost predicate Named(lib: NetLibrary, list: seq<string>, ip: nat) {
    exists i :: 0 <= i < |list| && ReadItem(lib, list[i]).Some? && ReadItem(lib, list[i]).value(ip)
  }

  /** An address is in the parsed list exactly when it is in the network of some item that can be read. */
  lemma {:induction false} ParsedHas(lib: NetLibrary, list: seq<string>, ip: nat)
    ensures InAny(ip, Parsed(lib, list)) <==> Named(lib, list, ip)
    ensures Parsed(lib, list) == [] <==> forall i :: 0 <= i < |list| ==> ReadItem(lib, list[i]).None?
  {
    if list != [] {
      var init, last := list[..|list| - 1], list[|list| - 1];
      ParsedHas(lib, init, ip);
      InAnyMore(ip, Parsed(lib, init), match ReadItem(lib, last) case Some(n) => [n] case None => []);
      assert list == init + [last];
      assert forall i :: 0 <= i < |init| ==> list[i] == init[i];
    }
  }

  lemma InAnyMore(ip: nat, a: seq<Net>, b: seq<Net>)
    ensures InAny(ip, a + b) <==> InAny(ip, a) || InAny(ip, b)
  {
    if InAny(ip, a) {
      var i :| 0 <= i < |a| && a[i](ip);
      assert (a + b)[i](ip);
    }
    if InAny(ip, b) {
      var i :| 0 <= i < |b| && b[i](ip);
      assert (a + b)[|a| + i](ip);
    }
  }

  lemma SpaceChars(c: char)
    ensures IsSpace(c) <==> c in " \t\n\r" || c as int in {11, 12}
  {
  }

  /** Spaces around an item do not matter, and nothing else is cut. */
  lemma {:induction false} TrimSpaceCuts(left: string, s: string, right: string)
    requires forall i :: 0 <= i < |left| ==> IsSpace(left[i])
    requires forall i :: 0 <= i < |right| ==> IsSpace(right[i])
    requires s != "" && !IsSpace(s[0]) && !IsSpace(s[|s| - 1])
    ensures TrimSpace(left + (s + right)) == s
    decreases |left|
  {
    if left == "" {
      assert left + (s + right) == s + right;
      TrimSpaceAfter(s, right);
    } else {
      var whole := left + (s + right);
      assert whole[0] == left[0] && whole[1..] == left[1..] + (s + right);
      TrimSpaceCuts(left[1..], s, right);
    }
  }

  lemma {:induction false} TrimSpaceAfter(s: string, right: string)
    requires forall i :: 0 <= i < |right| ==> IsSpace(right[i])
    requires s != "" && !IsSpace(s[0]) && !IsSpace(s[|s| - 1])
    ensures TrimSpace(s + right) == s
    decreases |right|
  {
    var whole := s + right;
    if right == "" {
      assert whole == s;
    } else {
      assert whole[0] == s[0] && whole[|whole| - 1] == right[|right| - 1];
      assert whole[..|whole| - 1] == s + right[..|right| - 1];
      TrimSpaceAfter(s, right[..|right| - 1]);
    }
  }

  /** The library reads an address with the full prefix length, 32 for IPv4 and 128 for IPv6, as that address alone. */
  ghost predicate HostRoutes(lib: NetLibrary, address: string -> nat) {
    forall s :: lib.parseIP(s).Some? ==>
      var net := lib.parseCIDR(s + if lib.parseIP(s).value then "/32" else "/128");
      net.Some? && forall x :: net.value(x) <==> x == address(s)
  }

  /** So a bare address in a list names that address and no other. */
  lemma BareAddressIsHost(lib: NetLibrary, address: string -> nat, item: string, x: nat)
    requires HostRoutes(lib, address) && lib.parseIP(item).Some?
    requires item != "" && '/' !in item && TrimSpace(item) == item
    ensures Named(lib, [item], x) <==> x == address(item)
    ensures InAny(x, Parsed(lib, [item])) <==> x == address(item)
  {
    ParsedHas(lib, [item], x);
    assert [item][0] == item;
    assert ReadItem(lib, item).Some?;
  }

  /** An address outside a configured allow list gets in exactly when no item of that list can be read, so that there
      is no allow list left, and no deny item names it. */
  lemma OutsiderAdmittedIff(lib: NetLibrary, allow: seq<string>, deny: seq<string>, ip: nat)
    requires !Named(lib, allow, ip)
    ensures Admissible(Some(ip), Parsed(lib, allow), Parsed(lib, deny)) <==>
            (forall i :: 0 <= i < |allow| ==> ReadItem(lib, allow[i]).None?) && !Named(lib, deny, ip)
  {
    ParsedHas(lib, allow, ip);
    ParsedHas(lib, deny, ip);
  }

  /** For example an allow list whose one item is mistyped: everybody gets in. */
  lemma MistypedAllowList(lib: NetLibrary, ip: nat)
    requires lib.parseCIDR("10.0.0.0/33") == None
    ensures Admissible(Some(ip), Parsed(lib, ["10.0.0.0/33"]), Parsed(lib, []))
  {
    var item := "10.0.0.0/33";
    assert item[8] == '/';
    assert TrimSpace(item) == item;
    OutsiderAdmittedIff(lib, [item], [], ip);
  }

  /** The loop of ipInNets. */
  method IpInNets(ip: nat, nets: seq<Net>) returns (r: bool)
    ensures r <==> InAny(ip, nets)
  {
    for i := 0 to |nets|
      invariant !InAny(ip, nets[..i])
    {
      if nets[i](ip) {
        return true;
      }
    }
    return false;
  }

  predicate InAny(ip: nat, nets: seq<Net>) {
    exists i :: 0 <= i < |nets| && nets[i](ip)
  }

  /** Who may connect: not denied, and within the allowed networks if there are any. */
  predicate Admissible(ip: Option<nat>, allow: seq<Net>, deny: seq<Net>) {
    ip.Some? && !InAny(ip.value, deny) && (allow == [] || InAny(ip.value, allow))
  }

  /** IPFilterMiddleware's decision, in its own order of tests. */
  method IPFilterPasses(ip: Option<nat>, allow: seq<Net>, deny: seq<Net>) returns (pass: bool)
    ensures pass <==> Admissible(ip, allow, deny)
  {
    if ip.None? {
      return false;
    }
    if |deny| > 0 {
      var denied := IpInNets(ip.value, deny);
      if denied {
        return false;
      }
    }
    if |allow| > 0 {
      var allowed := IpInNets(ip.value, allow);
      if !allowed {
        return false;
      }
    }
    return true;
  }

  // ---- Passing the layers ----

  /** Everything the layers of one site remember: buckets, semaphore slots taken, requests logged. */
  datatype Memory = Memory(buckets: RateLimit.Buckets, slots: nat, logged: nat)
  datatype Verdict = Pass | Stop(status: nat)

  function Enter(l: Layer, m: Memory, r: Request, now: real): (Verdict, Memory) {
    match l
    case ForceHTTPS => (if r.tls then Pass else Stop(301), m)
    case IPFilter(allow, deny) => (if Admissible(r.ip, allow, deny) then Pass else Stop(403), m)
    case RateLimiting(p) =>
      var b := RateLimit.BucketOf(p, m.buckets, r.peer, now);
      (if RateLimit.Allowed(p, b, now) then Pass else Stop(429),
       m.(buckets := RateLimit.After(p, m.buckets, RateLimit.Call(r.peer, now))))
    case CORS(cfg) =>
      var allowed := r.origin != "" && (cfg.allowAll || r.origin in cfg.origins);
      (if allowed && r.options then Stop(204) else Pass, m)
    case Concurrency(max) => if m.slots < max then (Pass, m.(slots := m.slots + 1)) else (Stop(503), m)
    case Custom(stops) => (if stops(r) then Stop(200) else Pass, m)
    case _ => (Pass, m)
  }

  /** Layer by layer, outermost first, until one stops the request. */
  function Admit(layers: seq<Layer>, m: Memory, r: Request, now: real): (Verdict, Memory) {
    if layers == [] then (Pass, m)
    else
      var (v, m') := Enter(layers[0], m, r, now);
      if v.Stop? then (v, m') else Admit(layers[1..], m', r, now)
  }

  /** Leaving a layer that was passed: the slot is released, the request logged. */
  function Leave(l: Layer, m: Memory): Memory {
    match l
    case Concurrency(_) => m.(slots := if m.slots > 0 then m.slots - 1 else 0)
    case Logging => m.(logged := m.logged + 1)
    case _ => m
  }

  /** A request stopped within the outer layers never learns what is inside them. */
  lemma {:induction false} StoppedOutside(outer: seq<Layer>, inner: seq<Layer>, m: Memory, r: Request, now: real)
    ensures Admit(outer, m, r, now).0.Stop? ==> Admit(outer + inner, m, r, now) == Admit(outer, m, r, now)
    ensures Admit(outer, m, r, now).0.Pass? ==>
            Admit(outer + inner, m, r, now) == Admit(inner, Admit(outer, m, r, now).1, r, now)
  {
    if outer == [] {
      assert outer + inner == inner;
    } else {
      assert (outer + inner)[1..] == outer[1..] + inner;
      var (v, m') := Enter(outer[0], m, r, now);
      if v.Pass? {
        StoppedOutside(outer[1..], inner, m', r, now);
      }
    }
  }
}

/** internal/server/middleware/manager.go: a chain of middleware in a Go slice. */
module MiddlewareManager {
  import opened Gates

  /** The slice is its backing array and its length; appending writes in place while there is room. */
  class Manager {
    var backing: array<Layer>
    var len: nat

    ghost predicate Valid()
      reads this
    {
      len <= backing.Length
    }

    ghost function Contents(): seq<Layer>
      requires Valid()
      reads this, backing
    {
      backing[..len]
    }

    constructor ()
      ensures Valid() && fresh(backing) && Contents() == []
    {
      backing, len := new Layer[0], 0;
    }

    constructor WithBacking(a: array<Layer>)
      ensures Valid() && backing == a && len == a.Length
    {
      backing, len := a, a.Length;
    }

    /** Go's append: any larger array may be chosen when the old one is full. */
    method Use(mw: Layer)
      requires Valid()
      modifies this, backing
      ensures Valid() && (backing == old(backing) || fresh(backing))
      ensures Contents() == old(Contents()) + [mw]
    {
      if len == backing.Length {
        var spare: int :| spare >= 0;
        var bigger := new Layer[len + 1 + spare](_ => mw);
        CopyInto(bigger);
        backing := bigger;
      }
      backing[len] := mw;
      len := len + 1;
    }

    method CopyInto(dst: array<Layer>)
      requires Valid() && len <= dst.Length && dst != backing
      modifies dst
      ensures dst[..len] == old(Contents())
      ensures backing[..] == old(backing[..])
    {
      for i := 0 to len
        invariant dst[..i] == backing[..i]
        invariant backing[..] == old(backing[..])
      {
        dst[i] := backing[i];
      }
    }

    method Copy() returns (c: Manager)
      requires Valid()
      ensures fresh(c) && fresh(c.backing) && c.Valid()
      ensures c.Contents() == Contents()
    {
      var copied := new Layer[len](_ => Gzip);
      CopyInto(copied);
      c := new Manager.WithBacking(copied);
    }

    method Apply(handler: Handler) returns (h: Handler)
      requires Valid()
      ensures h == Chain(Contents(), handler)
    {
      h := handler;
      var i := len;
      while i > 0
        invariant 0 <= i <= len
        invariant h == Chain(backing[i..len], handler)
      {
        i := i - 1;
        assert backing[i..len] == [backing[i]] + backing[i + 1..len];
        h := Wrap(backing[i], h);
      }
    }
  }

  /** Whatever is later added to a copy and to the original, neither sees the other's additions. */
  method CopyIsIndependent(m: Manager, forCopy: seq<Layer>, forOriginal: seq<Layer>) returns (c: Manager)
    requires m.Valid()
    modifies m, m.backing
    ensures m.Valid() && m.Contents() == old(m.Contents()) + forOriginal
    ensures fresh(c) && c.Valid() && c.Contents() == old(m.Contents()) + forCopy
  {
    c := m.Copy();
    for i := 0 to |forCopy|
      invariant fresh(c) && fresh(c.backing) && c.Valid() && m.Valid()
      invariant m.backing == old(m.backing) && m.Contents() == old(m.Contents())
      invariant c.Contents() == old(m.Contents()) + forCopy[..i]
    {
      c.Use(forCopy[i]);
    }
    for i := 0 to |forOriginal|
      invariant fresh(c) && fresh(c.backing) && c.Valid() && m.Valid() && m.backing != c.backing
      invariant m.backing == old(m.backing) || fresh(m.backing)
      invariant m.Contents() == old(m.Contents()) + forOriginal[..i]
      invariant c.Contents() == old(m.Contents()) + forCopy
    {
      m.Use(forOriginal[i]);
    }
  }
}

/** internal/server/handler.go: the handler of one site, and runs of requests through it. */
module SiteHandler {
  import opened Strings
  import opened Gates
  import opened MiddlewareManager
  import RateLimit

  datatype SiteConfig = SiteConfig(
    proxyUpstreams: seq<string>, proxyPass: string, root: string,
    maxConcurrent: int, enableLogging: Option<bool>,
    securityHeaders: bool, hsts: bool, cors: Option<Cors>, maxBodyBytes: int,
    rateLimitRPS: real, rateLimitBurst: int,
    allowIPs: seq<string>, denyIPs: seq<string>, forceHTTPS: bool)

  function When(p: bool, l: Layer): seq<Layer> {
    if p then [l] else []
  }

  function LimitsOf(rps: real, burst: int): RateLimit.Limits {
    RateLimit.Limits(rps, if burst < 1 then 1 else burst)
  }

  predicate HasIPLists(conf: SiteConfig) {
    conf.allowIPs != [] || conf.denyIPs != []
  }

  /** The rate as configured, and room for one token at least. */
  lemma LimitsAreConfigured(rps: real, burst: int)
    ensures LimitsOf(rps, burst).rate == rps && LimitsOf(rps, burst).burst >= 1
    ensures burst >= 1 ==> LimitsOf(rps, burst).burst == burst
    ensures burst < 1 ==> LimitsOf(rps, burst).burst == 1
  {
  }

  /** The outer half of the edge: the gates that turn requests away. */
  function GateLayers(lib: NetLibrary, conf: SiteConfig): seq<Layer> {
    When(conf.forceHTTPS, ForceHTTPS)
    + (When(HasIPLists(conf), IPFilter(Parsed(lib, conf.allowIPs), Parsed(lib, conf.denyIPs)))
       + When(conf.rateLimitRPS > 0.0, RateLimiting(LimitsOf(conf.rateLimitRPS, conf.rateLimitBurst))))
  }

  /** The inner half of the edge. */
  function HeaderLayers(conf: SiteConfig): seq<Layer> {
    When(conf.maxBodyBytes > 0, BodyLimit(conf.maxBodyBytes))
    + ((if conf.cors.Some? then [CORS(conf.cors.value)] else [])
       + When(conf.securityHeaders || conf.hsts, SecurityHeaders))
  }

  /** The documented order of the edge, outermost first. */
  function Edge(lib: NetLibrary, conf: SiteConfig): seq<Layer> {
    GateLayers(lib, conf) + HeaderLayers(conf)
  }

  /** The layers closest to the site. */
  function Inner(conf: SiteConfig): seq<Layer> {
    (if conf.maxConcurrent > 0 then [Concurrency(conf.maxConcurrent)] else [])
    + [Gzip]
    + When(conf.enableLogging != Some(false), Logging)
  }

  /** All the layers of a site. */
  function Layers(lib: NetLibrary, conf: SiteConfig, global: seq<Layer>): seq<Layer> {
    Edge(lib, conf) + (global + Inner(conf))
  }

  function Kind(conf: SiteConfig): SiteKind {
    if conf.proxyUpstreams != [] then LoadBalanced(conf.proxyUpstreams)
    else if conf.proxyPass != "" then Proxied(conf.proxyPass)
    else Static(conf.root)
  }

  predicate TargetsParse(conf: SiteConfig, parses: string -> bool) {
    if conf.proxyUpstreams != [] then forall i :: 0 <= i < |conf.proxyUpstreams| ==> parses(conf.proxyUpstreams[i])
    else conf.proxyPass != "" ==> parses(conf.proxyPass)
  }

  lemma Assoc(a: seq<Layer>, b: seq<Layer>, c: seq<Layer>)
    ensures (a + b) + c == a + (b + c)
  {
  }

  /** Wraps one more layer around a chain. */
  lemma WrapMore(l: Layer, layers: seq<Layer>, h: Handler)
    ensures Wrap(l, Chain(layers, h)) == Chain([l] + layers, h)
  {
    assert ([l] + layers)[1..] == layers;
  }

  /** Built from the inside out; `parses` is url.Parse's verdict on a target. */
  method CreateHandler(lib: NetLibrary, conf: SiteConfig, globalMw: Manager, parses: string -> bool)
    returns (r: Option<Handler>)
    requires globalMw.Valid()
    ensures globalMw.Valid() && globalMw.Contents() == old(globalMw.Contents())
    ensures r == if !TargetsParse(conf, parses) then None
                 else Some(Chain(Layers(lib, conf, globalMw.Contents()), Site(Kind(conf))))
  {
    if conf.proxyUpstreams != [] {
      for i := 0 to |conf.proxyUpstreams|
        invariant forall k :: 0 <= k < i ==> parses(conf.proxyUpstreams[k])
      {
        if !parses(conf.proxyUpstreams[i]) {
          return None;
        }
      }
    } else if conf.proxyPass != "" && !parses(conf.proxyPass) {
      return None;
    }
    var handler := WrapInner(conf, globalMw, Site(Kind(conf)));
    handler := WrapOuter(lib, conf, handler, globalMw.Contents() + Inner(conf), Site(Kind(conf)));
    return Some(handler);
  }

  /** The manager's part: a copy of the global chain, extended for this site and applied. */
  method WrapInner(conf: SiteConfig, globalMw: Manager, site: Handler) returns (h: Handler)
    requires globalMw.Valid()
    ensures globalMw.Valid() && globalMw.Contents() == old(globalMw.Contents())
    ensures h == Chain(globalMw.Contents() + Inner(conf), site)
  {
    var siteMw := globalMw.Copy();
    ghost var global := globalMw.Contents();
    if conf.maxConcurrent > 0 {
      siteMw.Use(Concurrency(conf.maxConcurrent));
    }
    siteMw.Use(Gzip);
    if conf.enableLogging.None? || conf.enableLogging.value {
      siteMw.Use(Logging);
    }
    assert siteMw.Contents() == global + Inner(conf);
    h := siteMw.Apply(site);
  }

  /** The edge, wrapped in reverse. */
  method WrapOuter(lib: NetLibrary, conf: SiteConfig, inner: Handler, ghost chain: seq<Layer>, ghost site: Handler)
    returns (h: Handler)
    requires inner == Chain(chain, site)
    ensures h == Chain(Edge(lib, conf) + chain, site)
  {
    h := WrapHeaders(conf, inner, chain, site);
    h := WrapGates(lib, conf, h, HeaderLayers(conf) + chain, site);
    Assoc(GateLayers(lib, conf), HeaderLayers(conf), chain);
  }

  method WrapHeaders(conf: SiteConfig, inner: Handler, ghost chain: seq<Layer>, ghost site: Handler)
    returns (h: Handler)
    requires inner == Chain(chain, site)
    ensures h == Chain(HeaderLayers(conf) + chain, site)
  {
    ghost var edge: seq<Layer> := [];
    assert edge + chain == chain;
    h, edge := WrapEdge(conf.securityHeaders || conf.hsts, SecurityHeaders, inner, edge, chain, site);
    if conf.cors.Some? {
      h, edge := WrapEdge(true, CORS(conf.cors.value), h, edge, chain, site);
    }
    h, edge := WrapEdge(conf.maxBodyBytes > 0, BodyLimit(conf.maxBodyBytes), h, edge, chain, site);
    assert edge == HeaderLayers(conf);
  }

  method WrapGates(lib: NetLibrary, conf: SiteConfig, inner: Handler, ghost chain: seq<Layer>, ghost site: Handler)
    returns (h: Handler)
    requires inner == Chain(chain, site)
    ensures h == Chain(GateLayers(lib, conf) + chain, site)
  {
    ghost var edge: seq<Layer> := [];
    assert edge + chain == chain;
    var limits := LimitsOf(conf.rateLimitRPS, conf.rateLimitBurst);
    h, edge := WrapEdge(conf.rateLimitRPS > 0.0, RateLimiting(limits), inner, edge, chain, site);
    var allow := ParseCIDRs(lib, conf.allowIPs);
    var deny := ParseCIDRs(lib, conf.denyIPs);
    h, edge := WrapEdge(HasIPLists(conf), IPFilter(allow, deny), h, edge, chain, site);
    h, edge := WrapEdge(conf.forceHTTPS, ForceHTTPS, h, edge, chain, site);
    assert edge == GateLayers(lib, conf);
  }

  /** One `if enabled { handler = layer(handler) }`. */
  method WrapEdge(enabled: bool, l: Layer, handler: Handler, ghost edge: seq<Layer>, ghost chain: seq<Layer>,
                  ghost site: Handler)
    returns (h: Handler, ghost edge': seq<Layer>)
    requires handler == Chain(edge + chain, site)
    ensures edge' == When(enabled, l) + edge
    ensures h == Chain(edge' + chain, site)
  {
    h, edge' := handler, edge;
    if enabled {
      WrapMore(l, edge + chain, site);
      h, edge' := Wrap(l, handler), [l] + edge;
      assert edge' + chain == [l] + (edge + chain);
    }
  }

  // ---- What a stopped request leaves behind ----

  /** Turned away for its protocol or address: nothing at all is spent. */
  lemma EarlyStopsSpendNothing(lib: NetLibrary, conf: SiteConfig, global: seq<Layer>, m: Memory, r: Request, now: real)
    requires || (conf.forceHTTPS && !r.tls)
             || (HasIPLists(conf) && !Admissible(r.ip, Parsed(lib, conf.allowIPs), Parsed(lib, conf.denyIPs)))
    ensures Admit(Layers(lib, conf, global), m, r, now).0.Stop?
    ensures Admit(Layers(lib, conf, global), m, r, now).1 == m
  {
    var first := When(conf.forceHTTPS, ForceHTTPS);
    var second := When(HasIPLists(conf), IPFilter(Parsed(lib, conf.allowIPs), Parsed(lib, conf.denyIPs)));
    var limit := When(conf.rateLimitRPS > 0.0, RateLimiting(LimitsOf(conf.rateLimitRPS, conf.rateLimitBurst)));
    var rest := limit + (HeaderLayers(conf) + (global + Inner(conf)));
    Assoc(GateLayers(lib, conf), HeaderLayers(conf), global + Inner(conf));
    Assoc(first, second, limit);
    Assoc(first + second, limit, HeaderLayers(conf) + (global + Inner(conf)));
    OneLayer(conf.forceHTTPS, ForceHTTPS, m, r, now);
    OneLayer(HasIPLists(conf), IPFilter(Parsed(lib, conf.allowIPs), Parsed(lib, conf.denyIPs)), m, r, now);
    StoppedOutside(first, second, m, r, now);
    StoppedOutside(first + second, rest, m, r, now);
  }

  lemma OneLayer(enabled: bool, l: Layer, m: Memory, r: Request, now: real)
    ensures Admit(When(enabled, l), m, r, now) == if enabled then Enter(l, m, r, now) else (Pass, m)
  {
    assert enabled ==> When(enabled, l)[1..] == [];
  }

  /** Neither a slot nor a log line: what all layers outside Inner have in common. */
  ghost predicate Outside(layers: seq<Layer>) {
    forall i :: 0 <= i < |layers| ==> !layers[i].Concurrency? && !layers[i].Logging?
  }

  lemma OuterIsOutside(lib: NetLibrary, conf: SiteConfig, global: seq<Layer>)
    requires Outside(global)
    ensures Outside(Edge(lib, conf) + global)
  {
    GatesOutside(lib, conf);
    HeadersOutside(conf);
    OutsideConcat(GateLayers(lib, conf), HeaderLayers(conf));
    OutsideConcat(Edge(lib, conf), global);
  }

  lemma OutsideConcat(a: seq<Layer>, b: seq<Layer>)
    requires Outside(a) && Outside(b)
    ensures Outside(a + b)
  {
  }

  lemma GatesOutside(lib: NetLibrary, conf: SiteConfig)
    ensures Outside(GateLayers(lib, conf))
  {
  }

  lemma HeadersOutside(conf: SiteConfig)
    ensures Outside(HeaderLayers(conf))
  {
  }

  /** A refused request takes no slot and is not logged, whoever refuses it; an admitted one takes one
      slot, and 503 means that all slots were taken. */
  lemma RefusalsTakeNoSlot(lib: NetLibrary, conf: SiteConfig, global: seq<Layer>, m: Memory, r: Request, now: real)
    requires Outside(global)
    ensures var (v, m') := Admit(Layers(lib, conf, global), m, r, now);
            && (v.Stop? ==> m'.slots == m.slots && m'.logged == m.logged)
            && (v.Pass? ==> m'.logged == m.logged && m'.slots == m.slots + if conf.maxConcurrent > 0 then 1 else 0)
            && (v.Pass? && conf.maxConcurrent > 0 ==> m.slots < conf.maxConcurrent)
            && (v == Stop(503) ==> conf.maxConcurrent > 0 && m.slots >= conf.maxConcurrent)
  {
    OuterIsOutside(lib, conf, global);
    Assoc(Edge(lib, conf), global, Inner(conf));
    AdmitThrough(Edge(lib, conf) + global, conf, m, r, now);
  }

  lemma AdmitThrough(outer: seq<Layer>, conf: SiteConfig, m: Memory, r: Request, now: real)
    requires Outside(outer)
    ensures var (v, m') := Admit(outer + Inner(conf), m, r, now);
            && (v.Stop? ==> m'.slots == m.slots && m'.logged == m.logged)
            && (v.Pass? ==> m'.logged == m.logged && m'.slots == m.slots + if conf.maxConcurrent > 0 then 1 else 0)
            && (v.Pass? && conf.maxConcurrent > 0 ==> m.slots < conf.maxConcurrent)
            && (v == Stop(503) ==> conf.maxConcurrent > 0 && m.slots >= conf.maxConcurrent)
  {
    StoppedOutside(outer, Inner(conf), m, r, now);
    NoSlotsBefore(outer, m, r, now);
    InnerAdmits(conf, Admit(outer, m, r, now).1, r, now);
  }

  lemma {:induction false} NoSlotsBefore(layers: seq<Layer>, m: Memory, r: Request, now: real)
    requires Outside(layers)
    ensures var (v, m') := Admit(layers, m, r, now);
            m'.slots == m.slots && m'.logged == m.logged && v != Stop(503)
  {
    if layers != [] {
      NoSlotsBefore(layers[1..], Enter(layers[0], m, r, now).1, r, now);
    }
  }

  lemma InnerAdmits(conf: SiteConfig, m: Memory, r: Request, now: real)
    ensures Admit(Inner(conf), m, r, now) ==
            if conf.maxConcurrent <= 0 then (Pass, m)
            else if m.slots < conf.maxConcurrent then (Pass, m.(slots := m.slots + 1))
            else (Stop(503), m)
  {
    var tail := [Gzip] + When(conf.enableLogging != Some(false), Logging);
    forall m': Memory
      ensures Admit(tail, m', r, now) == (Pass, m')
    {
      assert tail[1..] == When(conf.enableLogging != Some(false), Logging);
      assert When(true, Logging)[1..] == [];
      assert Admit(tail[1..], m', r, now) == (Pass, m');
    }
    if conf.maxConcurrent > 0 {
      assert Inner(conf) == [Concurrency(conf.maxConcurrent)] + tail;
      assert Inner(conf)[1..] == tail;
    } else {
      assert Inner(conf) == tail;
    }
  }

  // ---- Which refusal, in which order ----

  lemma AdmitWhen(p: bool, l: Layer, rest: seq<Layer>, m: Memory, r: Request, now: real)
    ensures Admit(When(p, l) + rest, m, r, now) ==
            if !p then Admit(rest, m, r, now)
            else if Enter(l, m, r, now).0.Stop? then Enter(l, m, r, now)
            else Admit(rest, Enter(l, m, r, now).1, r, now)
  {
    OneLayer(p, l, m, r, now);
    StoppedOutside(When(p, l), rest, m, r, now);
  }

  lemma AdmitCors(cors: Option<Cors>, rest: seq<Layer>, m: Memory, r: Request, now: real)
    ensures Admit((if cors.Some? then [CORS(cors.value)] else []) + rest, m, r, now) ==
            if cors.Some? && r.options && r.origin != "" && (cors.value.allowAll || r.origin in cors.value.origins)
            then (Stop(204), m)
            else Admit(rest, m, r, now)
  {
    if cors.Some? {
      AdmitWhen(true, CORS(cors.value), rest, m, r, now);
    } else {
      assert [] + rest == rest;
    }
  }

  /** The client's address is refused: unknown, denied, or outside an allow list of which something can be read. */
  ghost predicate AddressRefused(lib: NetLibrary, allow: seq<string>, deny: seq<string>, ip: Option<nat>) {
    || ip.None?
    || Named(lib, deny, ip.value)
    || ((exists i :: 0 <= i < |allow| && ReadItem(lib, allow[i]).Some?) && !Named(lib, allow, ip.value))
  }

  lemma AddressRefusedIff(lib: NetLibrary, allow: seq<string>, deny: seq<string>, ip: Option<nat>)
    ensures Admissible(ip, Parsed(lib, allow), Parsed(lib, deny)) <==> !AddressRefused(lib, allow, deny, ip)
  {
    if ip.Some? {
      ParsedHas(lib, allow, ip.value);
      ParsedHas(lib, deny, ip.value);
    }
  }

  /** The client has less than one token left. */
  predicate OutOfTokens(conf: SiteConfig, m: Memory, r: Request, now: real) {
    r.peer in m.buckets && m.buckets[r.peer].tokens + Elapsed(m, r, now) * conf.rateLimitRPS < 1.0
  }

  /** Seconds since the client's last call. */
  function Elapsed(m: Memory, r: Request, now: real): real
    requires r.peer in m.buckets
  {
    now - m.buckets[r.peer].last
  }

  lemma OutOfTokensIff(conf: SiteConfig, m: Memory, r: Request, now: real)
    ensures var p := LimitsOf(conf.rateLimitRPS, conf.rateLimitBurst);
            RateLimit.Allowed(p, RateLimit.BucketOf(p, m.buckets, r.peer, now), now) <==> !OutOfTokens(conf, m, r, now)
  {
    var p := LimitsOf(conf.rateLimitRPS, conf.rateLimitBurst);
    var b := RateLimit.BucketOf(p, m.buckets, r.peer, now);
    if r.peer in m.buckets {
      RateLimit.PotentialExact(p, b, now, Elapsed(m, r, now));
    } else {
      RateLimit.PotentialExact(p, b, now, 0.0);
    }
  }

  /** What a site answers a request with before it serves it, reason by reason, in this order: 301 for plain HTTP, 403
      for the address, 429 for want of a token, 204 for a CORS preflight, whatever the global chain says, and 503
      when all slots are taken. */
  lemma SiteVerdict(lib: NetLibrary, conf: SiteConfig, global: seq<Layer>, m: Memory, r: Request, now: real)
    ensures var v := Admit(Layers(lib, conf, global), m, r, now).0;
            if conf.forceHTTPS && !r.tls then v == Stop(301)
            else if (conf.allowIPs != [] || conf.denyIPs != [])
                    && AddressRefused(lib, conf.allowIPs, conf.denyIPs, r.ip)
            then v == Stop(403)
            else if conf.rateLimitRPS > 0.0 && OutOfTokens(conf, m, r, now) then v == Stop(429)
            else if conf.cors.Some? && r.options && r.origin != ""
                    && (conf.cors.value.allowAll || r.origin in conf.cors.value.origins)
            then v == Stop(204)
            else
              var (g, m') := Admit(global, if conf.rateLimitRPS > 0.0 then AfterToken(conf, m, r, now) else m, r, now);
              if g.Stop? then v == g
              else v == if conf.maxConcurrent > 0 && m'.slots >= conf.maxConcurrent then Stop(503) else Pass
  {
    var limits := LimitsOf(conf.rateLimitRPS, conf.rateLimitBurst);
    var filter := IPFilter(Parsed(lib, conf.allowIPs), Parsed(lib, conf.denyIPs));
    var m1 := if conf.rateLimitRPS > 0.0 then AfterToken(conf, m, r, now) else m;
    var tail := global + Inner(conf);
    AddressRefusedIff(lib, conf.allowIPs, conf.denyIPs, r.ip);
    OutOfTokensIff(conf, m, r, now);
    LayersInOrder(lib, conf, global);
    var after := HeaderLayers(conf) + tail;
    var limited := When(conf.rateLimitRPS > 0.0, RateLimiting(limits)) + after;
    AdmitWhen(conf.forceHTTPS, ForceHTTPS, When(HasIPLists(conf), filter) + limited, m, r, now);
    AdmitWhen(HasIPLists(conf), filter, limited, m, r, now);
    AdmitWhen(conf.rateLimitRPS > 0.0, RateLimiting(limits), after, m, r, now);
    HeadersAdmit(conf, tail, m1, r, now);
    StoppedOutside(global, Inner(conf), m1, r, now);
    InnerAdmits(conf, Admit(global, m1, r, now).1, r, now);
  }

  /** The client's bucket after the call has been counted. */
  function AfterToken(conf: SiteConfig, m: Memory, r: Request, now: real): Memory {
    var p := LimitsOf(conf.rateLimitRPS, conf.rateLimitBurst);
    m.(buckets := RateLimit.After(p, m.buckets, RateLimit.Call(r.peer, now)))
  }

  lemma LayersInOrder(lib: NetLibrary, conf: SiteConfig, global: seq<Layer>)
    ensures Layers(lib, conf, global) ==
            When(conf.forceHTTPS, ForceHTTPS)
            + (When(HasIPLists(conf), IPFilter(Parsed(lib, conf.allowIPs), Parsed(lib, conf.denyIPs)))
               + (When(conf.rateLimitRPS > 0.0, RateLimiting(LimitsOf(conf.rateLimitRPS, conf.rateLimitBurst)))
                  + (HeaderLayers(conf) + (global + Inner(conf)))))
  {
    var first := When(conf.forceHTTPS, ForceHTTPS);
    var second := When(HasIPLists(conf), IPFilter(Parsed(lib, conf.allowIPs), Parsed(lib, conf.denyIPs)));
    var third := When(conf.rateLimitRPS > 0.0, RateLimiting(LimitsOf(conf.rateLimitRPS, conf.rateLimitBurst)));
    var rest := HeaderLayers(conf) + (global + Inner(conf));
    Assoc(GateLayers(lib, conf), HeaderLayers(conf), global + Inner(conf));
    Assoc(first, second + third, rest);
    Assoc(second, third, rest);
  }

  lemma HeadersAdmit(conf: SiteConfig, tail: seq<Layer>, m: Memory, r: Request, now: real)
    ensures Admit(HeaderLayers(conf) + tail, m, r, now) ==
            if conf.cors.Some? && r.options && r.origin != ""
               && (conf.cors.value.allowAll || r.origin in conf.cors.value.origins) then (Stop(204), m)
            else Admit(tail, m, r, now)
  {
    var body := When(conf.maxBodyBytes > 0, BodyLimit(conf.maxBodyBytes));
    var cors := if conf.cors.Some? then [CORS(conf.cors.value)] else [];
    var headers := When(conf.securityHeaders || conf.hsts, SecurityHeaders);
    Assoc(body, cors + headers, tail);
    Assoc(cors, headers, tail);
    AdmitWhen(conf.maxBodyBytes > 0, BodyLimit(conf.maxBodyBytes), cors + (headers + tail), m, r, now);
    AdmitCors(conf.cors, headers + tail, m, r, now);
    AdmitWhen(conf.securityHeaders || conf.hsts, SecurityHeaders, tail, m, r, now);
  }

  /** What is behind all layers: upstreams before a proxy target before files. */
  lemma SiteServes(conf: SiteConfig)
    ensures conf.proxyUpstreams != [] ==> Kind(conf) == LoadBalanced(conf.proxyUpstreams)
    ensures conf.proxyUpstreams == [] && conf.proxyPass != "" ==> Kind(conf) == Proxied(conf.proxyPass)
    ensures conf.proxyUpstreams == [] && conf.proxyPass == "" ==> Kind(conf) == Static(conf.root)
  {
  }

  // ---- Runs of overlapping requests, layer by layer ----

  /** Where a request is: it has passed `depth` layers and is on its way in, or has still to leave them. */
  datatype Position = Entering(request: Request, depth: nat) | Leaving(depth: nat)

  datatype Event = Arrive(id: nat, request: Request) | Proceed(id: nat, at: real) | Answer(id: nat) | Unwind(id: nat)

  /** The site's memory, the requests under way, and how many the site has served. */
  datatype System = System(memory: Memory, at: map<nat, Position>, served: nat)

  /** Events that cannot happen change nothing. */
  function Step(layers: seq<Layer>, s: System, e: Event): System {
    if e.Arrive? then
      if e.id in s.at then s else s.(at := s.at[e.id := Entering(e.request, 0)])
    else if e.id !in s.at then s
    else
      var p := s.at[e.id];
      match e
      case Proceed(id, now) =>
        if p.Entering? && p.depth < |layers| then
          var (v, m) := Enter(layers[p.depth], s.memory, p.request, now);
          s.(memory := m, at := s.at[id := if v.Pass? then Entering(p.request, p.depth + 1) else Leaving(p.depth)])
        else s
      case Answer(id) =>
        if p.Entering? && p.depth >= |layers| then s.(at := s.at[id := Leaving(p.depth)]) else s
      case Unwind(id) =>
        if p.Entering? then s
        else if p.depth == 0 then s.(at := s.at - {id})
        else if p.depth > |layers| then s
        else System(Leave(layers[p.depth - 1], s.memory), s.at[id := Leaving(p.depth - 1)],
                    s.served + if p.depth == |layers| then 1 else 0)
  }

  function Run(layers: seq<Layer>, s: System, events: seq<Event>): System {
    if events == [] then s else Step(layers, Run(layers, s, events[..|events| - 1]), events[|events| - 1])
  }

  /** The requests that are past layer `index` and have not left it. */
  function Inside(at: map<nat, Position>, index: nat): set<nat> {
    set id | id in at && at[id].depth > index
  }

  /** One semaphore at most, and logging, if on, innermost. Without a semaphore `sem` is beyond all layers. */
  ghost predicate Shape(layers: seq<Layer>, sem: nat, max: nat, logging: bool) {
    && |layers| > 0
    && (forall k :: 0 <= k < |layers| ==> (layers[k].Concurrency? <==> k == sem))
    && (sem < |layers| ==> layers[sem] == Concurrency(max))
    && (forall k :: 0 <= k < |layers| ==> (layers[k].Logging? <==> logging && k == |layers| - 1))
  }

  ghost predicate Accounted(layers: seq<Layer>, s: System, sem: nat, max: nat, logging: bool) {
    && (forall id :: id in s.at ==> s.at[id].depth <= |layers|)
    && s.memory.slots == |Inside(s.at, sem)|
    && (sem < |layers| ==> s.memory.slots <= max)
    && s.memory.logged == if logging then s.served else 0
  }

  lemma EnterCounts(l: Layer, m: Memory, r: Request, now: real)
    ensures var (v, m') := Enter(l, m, r, now);
            && m'.logged == m.logged
            && m'.slots == m.slots + (if l.Concurrency? && v.Pass? then 1 else 0)
            && (l.Concurrency? ==> (v.Pass? <==> m.slots < l.maxConcurrent))
  {
  }

  lemma OneInOrOut(ids: set<nat>, id: nat)
    ensures |ids + {id}| == |ids| + if id in ids then 0 else 1
    ensures |ids - {id}| == |ids| - if id in ids then 1 else 0
  {
    if id in ids {
      assert ids + {id} == ids;
    } else {
      assert ids - {id} == ids;
    }
  }

  /** One request moves to another depth. */
  lemma MoveCounts(at: map<nat, Position>, id: nat, p: Position, sem: nat)
    ensures var before := if id in at && at[id].depth > sem then 1 else 0;
            |Inside(at[id := p], sem)| == |Inside(at, sem)| - before + if p.depth > sem then 1 else 0
  {
    var was, now := Inside(at, sem), Inside(at[id := p], sem);
    assert id in was <==> id in at && at[id].depth > sem;
    OneInOrOut(was, id);
    if p.depth > sem {
      assert now == was + {id};
    } else {
      assert now == was - {id};
    }
  }

  lemma LeftCounts(at: map<nat, Position>, id: nat, sem: nat)
    requires id in at && at[id].depth == 0
    ensures Inside(at - {id}, sem) == Inside(at, sem)
  {
  }

  lemma StepAccounted(layers: seq<Layer>, s: System, e: Event, sem: nat, max: nat, logging: bool)
    requires Shape(layers, sem, max, logging) && Accounted(layers, s, sem, max, logging)
    ensures Accounted(layers, Step(layers, s, e), sem, max, logging)
  {
    var id, s' := e.id, Step(layers, s, e);
    if e.Proceed? && id in s.at && s.at[id].Entering? && s.at[id].depth < |layers| {
      EnterCounts(layers[s.at[id].depth], s.memory, s.at[id].request, e.at);
    }
    if id in s.at && id !in s'.at {
      LeftCounts(s.at, id, sem);
    } else if id in s'.at {
      MoveCounts(s.at, id, s'.at[id], sem);
      assert s'.at == s.at[id := s'.at[id]];
    }
  }

  lemma LayersShape(lib: NetLibrary, conf: SiteConfig, global: seq<Layer>)
    requires Outside(global)
    ensures var outer := |Edge(lib, conf) + global|; var layers := Layers(lib, conf, global);
            Shape(layers, if conf.maxConcurrent > 0 then outer else |layers|,
                  if conf.maxConcurrent > 0 then conf.maxConcurrent else 0, conf.enableLogging != Some(false))
  {
    OuterIsOutside(lib, conf, global);
    Assoc(Edge(lib, conf), global, Inner(conf));
    var sem := if conf.maxConcurrent > 0 then 0 else |Inner(conf)|;
    var max := if conf.maxConcurrent > 0 then conf.maxConcurrent else 0;
    InnerShape(conf);
    ShapeBehind(Edge(lib, conf) + global, Inner(conf), sem, max, conf.enableLogging != Some(false));
  }

  lemma InnerShape(conf: SiteConfig)
    ensures Shape(Inner(conf), if conf.maxConcurrent > 0 then 0 else |Inner(conf)|,
                  if conf.maxConcurrent > 0 then conf.maxConcurrent else 0, conf.enableLogging != Some(false))
  {
  }

  lemma ShapeBehind(outer: seq<Layer>, inner: seq<Layer>, sem: nat, max: nat, logging: bool)
    requires Outside(outer) && Shape(inner, sem, max, logging)
    ensures Shape(outer + inner, |outer| + sem, max, logging)
  {
    forall k | 0 <= k < |outer + inner|
      ensures (outer + inner)[k] == if k < |outer| then outer[k] else inner[k - |outer|]
    {
    }
  }

  /** In every run of overlapping requests, each layer crossed in a step of its own: the semaphore's slots are
      exactly the requests past it that have not left it, never more than the maximum; and, logging being
      innermost, exactly the requests that the site served are logged. */
  lemma {:induction false} OccupancyAndLog(lib: NetLibrary, conf: SiteConfig, global: seq<Layer>, events: seq<Event>)
    requires Outside(global)
    ensures var s := Run(Layers(lib, conf, global), System(Memory(map[], 0, 0), map[], 0), events);
            && (conf.maxConcurrent > 0 ==>
                  s.memory.slots == |Inside(s.at, |Edge(lib, conf) + global|)| <= conf.maxConcurrent)
            && s.memory.logged == if conf.enableLogging != Some(false) then s.served else 0
  {
    var layers := Layers(lib, conf, global);
    var sem := if conf.maxConcurrent > 0 then |Edge(lib, conf) + global| else |layers|;
    var max := if conf.maxConcurrent > 0 then conf.maxConcurrent else 0;
    LayersShape(lib, conf, global);
    RunAccounted(layers, events, sem, max, conf.enableLogging != Some(false));
    assert conf.maxConcurrent > 0 ==> |layers| == |Edge(lib, conf) + global| + |Inner(conf)|;
  }

  lemma {:induction false} RunAccounted(layers: seq<Layer>, events: seq<Event>, sem: nat, max: nat, logging: bool)
    requires Shape(layers, sem, max, logging)
    ensures Accounted(layers, Run(layers, System(Memory(map[], 0, 0), map[], 0), events), sem, max, logging)
  {
    var start := System(Memory(map[], 0, 0), map[], 0);
    if events == [] {
      assert Inside(start.at, sem) == {};
    } else {
      var init := events[..|events| - 1];
      RunAccounted(layers, init, sem, max, logging);
      StepAccounted(layers, Run(layers, start, init), events[|events| - 1], sem, max, logging);
    }
  }
}
