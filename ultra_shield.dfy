/** Ultra Shield as a stateful object (ultra-shield.js): the runtime
    configuration `mergeConfig` updates, the logger (the ghost event log),
    and the patches installed on the page's transports. Each method performs
    the source's steps in order and is proved to agree with the function of
    UltraScan, UltraEnforce, UltraLocation or UltraTransport that specifies it. */
module UltraShield {
  import opened Text
  import opened Js
  import opened SearchParams
  import opened Outbound
  import opened Browser
  import opened UltraConfig
  import opened UltraScan
  import opened UltraEnforce
  import opened UltraLocation
  import opened UltraTransport

  /** The transports the page offers (false when `window`, `navigator` or the
      primitive is undefined), and how many calls reached each original. */
  class Network {
    const hasFetch: bool
    const hasXhr: bool
    const hasBeacon: bool
    /** What the original `navigator.sendBeacon` returns. */
    const beaconAccepts: bool
    var fetched: nat
    var xhrSent: nat
    var beaconed: nat

    constructor(hasFetch: bool, hasXhr: bool, hasBeacon: bool, beaconAccepts: bool)
      ensures this.hasFetch == hasFetch && this.hasXhr == hasXhr && this.hasBeacon == hasBeacon
      ensures this.beaconAccepts == beaconAccepts
      ensures fetched == 0 && xhrSent == 0 && beaconed == 0
    {
      this.hasFetch := hasFetch;
      this.hasXhr := hasXhr;
      this.hasBeacon := hasBeacon;
      this.beaconAccepts := beaconAccepts;
      fetched, xhrSent, beaconed := 0, 0, 0;
    }
  }

  /** An Express request: the four parts the middleware may replace, and the
      properties its meta is built from ("" for a missing or empty one). */
  class Request {
    var query: Value
    var headers: Value
    var body: Value
    var cookies: Value
    const ip: string
    const remoteAddress: string
    const path: string
    const url: string
    const verb: string

    constructor(parts: ReqParts, ip: string, remoteAddress: string, path: string, url: string, verb: string)
      ensures Parts() == parts
      ensures this.ip == ip && this.remoteAddress == remoteAddress
      ensures this.path == path && this.url == url && this.verb == verb
    {
      query, headers, body, cookies := parts.query, parts.headers, parts.body, parts.cookies;
      this.ip, this.remoteAddress, this.path, this.url, this.verb := ip, remoteAddress, path, url, verb;
    }

    function Parts(): ReqParts
      reads this
    {
      ReqParts(query, headers, body, cookies)
    }

    /** `{ ip: req.ip || req.connection?.remoteAddress || null,
            path: req.path || req.url, method: req.method }` */
    function Meta(): (m: Meta)
      ensures m.RequestMeta? && m.verb == verb
      ensures ip != "" ==> m.ip == Some(ip)
      ensures ip == "" && remoteAddress != "" ==> m.ip == Some(remoteAddress)
      ensures ip == "" && remoteAddress == "" ==> m.ip == None
      ensures m.path == if path != "" then path else url
    {
      RequestMeta(if ip != "" then Some(ip) else if remoteAddress != "" then Some(remoteAddress) else None,
                  if path != "" then path else url,
                  verb)
    }
  }

  class Firewall {
    /** RUNTIME_CONFIG, without its logger. */
    var config: Config
    /** Every event handed to the logger, oldest first. */
    ghost var log: seq<Event>
    /** How many times each transport has been wrapped. */
    var fetchLayers: nat
    var xhrLayers: nat
    var beaconLayers: nat

    /** The module as loaded: the default configuration, nothing patched. */
    constructor()
      ensures config == DefaultConfig && log == []
      ensures fetchLayers == 0 && xhrLayers == 0 && beaconLayers == 0
    {
      config := DefaultConfig;
      log := [];
      fetchLayers, xhrLayers, beaconLayers := 0, 0, 0;
    }

    /** `configure(partial)` (mergeConfig). */
    method Configure(arg: ConfigArg)
      modifies this
      ensures config == Merge(old(config), arg)
      ensures log == old(log)
      ensures fetchLayers == old(fetchLayers) && xhrLayers == old(xhrLayers) && beaconLayers == old(beaconLayers)
    {
      config := Merge(config, arg);
    }

    /** `scanObject(obj, context, meta)`: walks the keys in order, logging each
      forbidden one and building the sanitized copy. */
    method ScanObject(obj: Value, context: string, meta: Meta) returns (r: ScanResult)
      modifies this
      ensures r == Scan(config, obj)
      ensures log == old(log) + ScanEvents(config, obj, context, meta)
      ensures config == old(config)
      ensures fetchLayers == old(fetchLayers) && xhrLayers == old(xhrLayers) && beaconLayers == old(beaconLayers)
    {
      if !obj.Obj? {
        return ScanResult(false, obj);
      }
      var cfg := config;
      var forbidden := LowerAll(cfg.forbiddenKeys);
      var fs := obj.fields;
      var incident := false;
      var sanitized: Fields := [];
      ghost var events: seq<Event> := [];
      var i := 0;
      while i < |fs|
        invariant 0 <= i <= |fs|
        invariant unchanged(this)
        invariant incident == HasForbiddenKey(cfg.forbiddenKeys, fs[..i])
        invariant sanitized == SanitizedFields(cfg, fs[..i])
        invariant events == Events(cfg, fs[..i], context, meta)
      {
        var (k, v) := fs[i];
        ScanStep(cfg, fs, i, context, meta);
        if Lower(k) in forbidden {
          incident := true;
          events := events + [ForbiddenKey(context, k, meta)];
          if cfg.mode == Sanitize {
            sanitized := sanitized + [(k, cfg.redactValue)];
          }
        } else {
          sanitized := sanitized + [(k, v)];
        }
        i := i + 1;
      }
      assert fs[..|fs|] == fs;
      AnyForbiddenMeaning(cfg.forbiddenKeys, fs);
      log := log + events;
      r := ScanResult(incident, Obj(obj.isArray, sanitized));
    }

    /** `ultraShieldMiddleware(req, res, next)`: returns the response sent, or
      Next when `next()` is called, and leaves `req` as the middleware leaves it. */
    method Middleware(req: Request) returns (verdict: Verdict)
      modifies this, req
      ensures var e := Enforce(old(config), old(req.Parts()), req.Meta());
              verdict == e.verdict && req.Parts() == e.req && log == old(log) + e.events
      ensures config == old(config)
      ensures fetchLayers == old(fetchLayers) && xhrLayers == old(xhrLayers) && beaconLayers == old(beaconLayers)
    {
      var meta := req.Meta();
      verdict := CheckParts(req, Order, meta);
    }

    /** The blocks for the parts `ps`, one after the other, stopping at the
      first that answers. */
    method CheckParts(req: Request, ps: seq<Part>, meta: Meta) returns (verdict: Verdict)
      modifies this, req
      decreases |ps|
      ensures var e := Walk(old(config), ps, old(req.Parts()), meta);
              verdict == e.verdict && req.Parts() == e.req && log == old(log) + e.events
      ensures config == old(config)
      ensures fetchLayers == old(fetchLayers) && xhrLayers == old(xhrLayers) && beaconLayers == old(beaconLayers)
    {
      if ps == [] {
        return Next;
      }
      var answer, ev := CheckPart(req, ps[0], meta);
      if answer.Some? {
        return answer.value;
      }
      ghost var mid := log;
      verdict := CheckParts(req, ps[1..], meta);
      assert log == old(log) + (ev + (log[|mid|..])) by {
        assert log == mid + log[|mid|..];
      }
    }

    /** One of the four blocks of the middleware: scans part `p` if its flag
      is on (cookies only when present), answers 400 on a hit under
      "reject", and writes the sanitized copy back on a hit under
      "sanitize" (never for the headers). `ev` is what this block logs. */
    method CheckPart(req: Request, p: Part, meta: Meta) returns (answer: Option<Verdict>, ghost ev: seq<Event>)
      modifies this, req
      ensures ev == PartEvents(config, p, old(req.Parts()), meta) && log == old(log) + ev
      ensures Block(config, p, old(req.Parts())) == if answer.Some? then Answer(answer.value) else Continue(req.Parts())
      ensures answer.Some? ==> req.Parts() == old(req.Parts())
      ensures config == old(config)
      ensures fetchLayers == old(fetchLayers) && xhrLayers == old(xhrLayers) && beaconLayers == old(beaconLayers)
    {
      ev := PartEvents(config, p, req.Parts(), meta);
      if !Enabled(config, Name(p)) || (p == Cookies && !Truthy(req.cookies)) {
        return None, ev;
      }
      var scanned: Value;
      match p {
        case Query => scanned := req.query;
        case Headers =>
          var lowered := LowerKeyed(OwnEntries(req.headers));
          scanned := Obj(false, lowered);
        case Body => scanned := if Truthy(req.body) then req.body else Obj(false, []);
        case Cookies => scanned := req.cookies;
      }
      var result := ScanObject(scanned, Name(p), meta);
      if result.incident && config.mode == Reject {
        return Some(Respond(400, Code(p), Message(p))), ev;
      }
      if result.incident && config.mode == Sanitize {
        match p {
          case Query => req.query := result.sanitized;
          case Headers =>
          case Body => req.body := result.sanitized;
          case Cookies => req.cookies := result.sanitized;
        }
      }
      return None, ev;
    }

    /** `hardenLocation()`: a null page stands for a context without
      `window.location`; the error a throwing `replaceState` reports is
      appended to the log. */
    method HardenLocation(page: Page?)
      modifies this, page
      ensures page == null ==> log == old(log)
      ensures page != null ==>
                var h := Harden(old(config), old(page.location), page.Refusal(old(page.calls)), page.Refusal(old(page.calls) + 1));
                && page.location == h.loc && page.replaced == old(page.replaced) + h.urls && log == old(log) + h.events
                && page.calls == old(page.calls) + |h.urls| + |h.events|
      ensures config == old(config)
      ensures fetchLayers == old(fetchLayers) && xhrLayers == old(xhrLayers) && beaconLayers == old(beaconLayers)
    {
      if page == null {
        return;
      }
      var events := HardenPage(config, page);
      log := log + events;
    }

    /** `shouldBlockTransport(context, url, body)` */
    method ShouldBlockTransport(context: string, url: UrlArg, body: Body) returns (blocked: bool)
      modifies this
      ensures var d := ShouldBlock(config, context, url, body);
              blocked == d.blocked && log == old(log) + d.events
      ensures config == old(config)
      ensures fetchLayers == old(fetchLayers) && xhrLayers == old(xhrLayers) && beaconLayers == old(beaconLayers)
    {
      var meta := TransportMeta(url, context);
      if UrlPresent(url) && InspectUrl(config.forbiddenKeys, url) {
        log := log + [TransportBlock(context, "forbidden_key_in_url", meta)];
        return true;
      }
      if TextPresent(body) && InspectBody(config.forbiddenKeys, body) {
        log := log + [TransportBlock(context, "forbidden_key_in_body", meta)];
        return true;
      }
      return false;
    }

    /** `patchFetch()`: wraps `window.fetch` once more when it exists and the
      "fetch" flag is on. Nothing marks a wrapped fetch, so a second call
      wraps the wrapper. */
    method PatchFetch(net: Network)
      modifies this
      ensures fetchLayers == old(fetchLayers) + (if net.hasFetch && Enabled(config, "fetch") then 1 else 0)
      ensures config == old(config) && log == old(log)
      ensures xhrLayers == old(xhrLayers) && beaconLayers == old(beaconLayers)
    {
      if !net.hasFetch {
        return;
      }
      if !Enabled(config, "fetch") {
        return;
      }
      fetchLayers := fetchLayers + 1;
    }

    /** `patchXHR()`: replaces `window.XMLHttpRequest` by a wrapping
      constructor when it exists and the "xhr" flag is on. */
    method PatchXhr(net: Network)
      modifies this
      ensures xhrLayers == old(xhrLayers) + (if net.hasXhr && Enabled(config, "xhr") then 1 else 0)
      ensures config == old(config) && log == old(log)
      ensures fetchLayers == old(fetchLayers) && beaconLayers == old(beaconLayers)
    {
      if !net.hasXhr {
        return;
      }
      if !Enabled(config, "xhr") {
        return;
      }
      xhrLayers := xhrLayers + 1;
    }

    /** `patchSendBeacon()`: wraps `navigator.sendBeacon` when it exists and
      the "sendBeacon" flag is on. */
    method PatchSendBeacon(net: Network)
      modifies this
      ensures beaconLayers == old(beaconLayers) + (if net.hasBeacon && Enabled(config, "sendBeacon") then 1 else 0)
      ensures config == old(config) && log == old(log)
      ensures fetchLayers == old(fetchLayers) && xhrLayers == old(xhrLayers)
    {
      if !net.hasBeacon {
        return;
      }
      if !Enabled(config, "sendBeacon") {
        return;
      }
      beaconLayers := beaconLayers + 1;
    }

    /** `patchTransports()` */
    method PatchTransports(net: Network)
      modifies this
      ensures fetchLayers == old(fetchLayers) + (if net.hasFetch && Enabled(config, "fetch") then 1 else 0)
      ensures xhrLayers == old(xhrLayers) + (if net.hasXhr && Enabled(config, "xhr") then 1 else 0)
      ensures beaconLayers == old(beaconLayers) + (if net.hasBeacon && Enabled(config, "sendBeacon") then 1 else 0)
      ensures config == old(config) && log == old(log)
    {
      PatchFetch(net);
      PatchXhr(net);
      PatchSendBeacon(net);
    }

    /** A call of `window.fetch(input, init)` on the page: it runs through
      every installed wrapper and, unless one rejects, reaches the original. */
    method WrappedFetch(net: Network, input: FetchInput, init: Init) returns (outcome: Outcome)
      modifies this, net
      ensures var f := UltraTransport.Fetch(config, fetchLayers, input, init);
              outcome == f.0 && log == old(log) + f.1
      ensures net.fetched == old(net.fetched) + (if outcome.Delegated? then 1 else 0)
      ensures net.xhrSent == old(net.xhrSent) && net.beaconed == old(net.beaconed)
      ensures config == old(config)
      ensures fetchLayers == old(fetchLayers) && xhrLayers == old(xhrLayers) && beaconLayers == old(beaconLayers)
    {
      outcome := FetchThrough(net, fetchLayers, input, init);
    }

    /** The fetch seen from inside `layers` wrappers. */
    method FetchThrough(net: Network, layers: nat, input: FetchInput, init: Init) returns (outcome: Outcome)
      modifies this, net
      decreases layers
      ensures var f := UltraTransport.Fetch(config, layers, input, init);
              outcome == f.0 && log == old(log) + f.1
      ensures net.fetched == old(net.fetched) + (if outcome.Delegated? then 1 else 0)
      ensures net.xhrSent == old(net.xhrSent) && net.beaconed == old(net.beaconed)
      ensures config == old(config)
      ensures fetchLayers == old(fetchLayers) && xhrLayers == old(xhrLayers) && beaconLayers == old(beaconLayers)
    {
      if layers == 0 {
        net.fetched := net.fetched + 1;
        return Delegated;
      }
      var blocked := ShouldBlockTransport("fetch", FetchUrl(input), FetchBody(init));
      if blocked {
        return Refused(FetchError);
      }
      outcome := FetchThrough(net, layers - 1, input, init);
    }

    /** A call of `navigator.sendBeacon(url, data)` on the page. */
    method WrappedSendBeacon(net: Network, url: UrlArg, data: Body) returns (sent: bool)
      modifies this, net
      ensures var s := UltraTransport.SendBeacon(config, beaconLayers, url, data, net.beaconAccepts);
              sent == s.0 && log == old(log) + s.1
      ensures net.beaconed == old(net.beaconed) +
                (if beaconLayers == 0 || !ShouldBlock(config, "sendBeacon", url, BeaconBody(data)).blocked then 1 else 0)
      ensures net.fetched == old(net.fetched) && net.xhrSent == old(net.xhrSent)
      ensures config == old(config)
      ensures fetchLayers == old(fetchLayers) && xhrLayers == old(xhrLayers) && beaconLayers == old(beaconLayers)
    {
      sent := BeaconThrough(net, beaconLayers, url, data);
    }

    /** The sendBeacon seen from inside `layers` wrappers. */
    method BeaconThrough(net: Network, layers: nat, url: UrlArg, data: Body) returns (sent: bool)
      modifies this, net
      decreases layers
      ensures var s := UltraTransport.SendBeacon(config, layers, url, data, net.beaconAccepts);
              sent == s.0 && log == old(log) + s.1
      ensures net.beaconed == old(net.beaconed) +
                (if layers == 0 || !ShouldBlock(config, "sendBeacon", url, BeaconBody(data)).blocked then 1 else 0)
      ensures net.fetched == old(net.fetched) && net.xhrSent == old(net.xhrSent)
      ensures config == old(config)
      ensures fetchLayers == old(fetchLayers) && xhrLayers == old(xhrLayers) && beaconLayers == old(beaconLayers)
    {
      if layers == 0 {
        net.beaconed := net.beaconed + 1;
        return net.beaconAccepts;
      }
      var blocked := ShouldBlockTransport("sendBeacon", url, BeaconBody(data));
      if blocked {
        return false;
      }
      sent := BeaconThrough(net, layers - 1, url, data);
    }
  }

  /** An `XMLHttpRequest` created on the page after `layers` patches
      (`new window.XMLHttpRequest()`), with the method and URL its last
      `open` recorded. */
  class GuardedXhr {
    const shield: Firewall
    const net: Network
    const layers: nat
    var verb: Option<string>
    var url: UrlArg

    constructor(shield: Firewall, net: Network)
      ensures this.shield == shield && this.net == net && layers == shield.xhrLayers
      ensures verb == None && url == NoUrl
    {
      this.shield := shield;
      this.net := net;
      layers := shield.xhrLayers;
      verb := None;
      url := NoUrl;
    }

    /** `xhr.open(method, url)`: every wrapper records both. */
    method Open(verb: string, url: UrlArg)
      modifies this
      ensures this.verb == Some(verb) && this.url == url
    {
      this.verb := Some(verb);
      this.url := url;
    }

    /** `xhr.send(body)`: the thrown message, or None when the original send
      is reached. */
    method Send(body: Body) returns (thrown: Option<string>)
      modifies shield, net
      ensures var x := XhrSend(shield.config, layers, verb, url, body);
              (if thrown.Some? then Refused(thrown.value) else Delegated) == x.0
              && shield.log == old(shield.log) + x.1
      ensures net.xhrSent == old(net.xhrSent) + (if thrown.None? then 1 else 0)
      ensures net.fetched == old(net.fetched) && net.beaconed == old(net.beaconed)
      ensures shield.config == old(shield.config)
      ensures shield.fetchLayers == old(shield.fetchLayers) && shield.xhrLayers == old(shield.xhrLayers)
      ensures shield.beaconLayers == old(shield.beaconLayers)
    {
      thrown := SendThrough(layers, body);
    }

    /** The send seen from inside `n` wrappers. */
    method SendThrough(n: nat, body: Body) returns (thrown: Option<string>)
      modifies shield, net
      decreases n
      ensures var x := XhrSend(shield.config, n, verb, url, body);
              (if thrown.Some? then Refused(thrown.value) else Delegated) == x.0
              && shield.log == old(shield.log) + x.1
      ensures net.xhrSent == old(net.xhrSent) + (if thrown.None? then 1 else 0)
      ensures net.fetched == old(net.fetched) && net.beaconed == old(net.beaconed)
      ensures shield.config == old(shield.config)
      ensures shield.fetchLayers == old(shield.fetchLayers) && shield.xhrLayers == old(shield.xhrLayers)
      ensures shield.beaconLayers == old(shield.beaconLayers)
    {
      if n == 0 {
        net.xhrSent := net.xhrSent + 1;
        return None;
      }
      var blocked := shield.ShouldBlockTransport("xhr", url, body);
      if blocked {
        shield.log := shield.log + [TransportBlock("xhr", "blocked_before_send", XhrMeta(verb, url))];
        return Some(XhrError);
      }
      thrown := SendThrough(n - 1, body);
    }
  }
}
