/** Ultra Shield's outbound checks (ultra-shield.js, section 5): whether a URL
    or a JSON body names a configured key, the decision `shouldBlockTransport`
    takes from both, and what the patched fetch, XMLHttpRequest#send and
    sendBeacon do with that decision. A transport patched `n` times runs `n`
    wrappers around the original, the outermost first; the functions below
    take that count as `layers`. */
module UltraTransport {
  import opened Text
  import opened Js
  import opened SearchParams
  import opened Outbound
  import opened UltraConfig
  import opened UltraScan

  /** `keys.some((k) => names.includes(k))`, names compared exactly. */
  function SomeIncluded(keys: seq<string>, names: seq<string>): (r: bool)
    ensures r <==> exists j :: 0 <= j < |keys| && keys[j] in names
  {
    if keys == [] then false
    else if keys[0] in names then true
    else
      var r := SomeIncluded(keys[1..], names);
      assert forall j :: 1 <= j < |keys| ==> keys[j] == keys[1..][j - 1];
      r
  }

  /** The parameter names of a query, in order. */
  function Names(ps: Pairs): (ns: seq<string>)
    ensures |ns| == |ps|
    ensures forall i :: 0 <= i < |ps| ==> ns[i] == ps[i].0
  {
    if ps == [] then [] else [ps[0].0] + Names(ps[1..])
  }

  /** `inspectUrlString`: some configured key is a parameter name of the
      URL's query, compared exactly; false when `new URL` throws. */
  function InspectUrl(keys: seq<string>, u: UrlArg): bool {
    match u
    case NoUrl => false
    case Url(_, search) => search.Some? && SomeIncluded(keys, Names(search.value))
  }

  /** `inspectBodyString`: the body parses to an object (an array counts, with
      its indices as keys) and some configured key equals one of its keys
      lower-cased. The configured keys themselves are not lower-cased. */
  function InspectBody(keys: seq<string>, b: Body): bool {
    match b
    case Text(_, Some(Obj(_, fs))) => SomeIncluded(keys, LowerAll(KeysOf(fs)))
    case _ => false
  }

  /** A URL is flagged exactly when its query has a pair named by a key. */
  lemma InspectUrlMeaning(keys: seq<string>, u: UrlArg)
    ensures InspectUrl(keys, u) <==> u.Url? && u.search.Some? && HitsAny(u.search.value, keys)
  {
    if u.Url? && u.search.Some? {
      var ps := u.search.value;
      if HitsAny(ps, keys) {
        var i :| 0 <= i < |ps| && ps[i].0 in keys;
        var j :| 0 <= j < |keys| && keys[j] == ps[i].0;
        assert keys[j] in Names(ps);
      }
      if InspectUrl(keys, u) {
        var j :| 0 <= j < |keys| && keys[j] in Names(ps);
        var i :| 0 <= i < |ps| && Names(ps)[i] == keys[j];
        assert ps[i].0 in keys;
      }
    }
  }

  /** A body is flagged exactly when some key of the parsed object, once
      lower-cased, is one of the configured keys. */
  lemma InspectBodyMeaning(keys: seq<string>, text: string, isArray: bool, fs: Fields)
    ensures InspectBody(keys, Text(text, Some(Obj(isArray, fs)))) <==>
            exists i :: 0 <= i < |fs| && Lower(fs[i].0) in keys
  {
    var lowered := LowerAll(KeysOf(fs));
    LowerAllAt(KeysOf(fs));
    KeysOfAt(fs);
    if InspectBody(keys, Text(text, Some(Obj(isArray, fs)))) {
      var j :| 0 <= j < |keys| && keys[j] in lowered;
      var i :| 0 <= i < |lowered| && lowered[i] == keys[j];
      assert Lower(fs[i].0) in keys;
    }
    if exists i :: 0 <= i < |fs| && Lower(fs[i].0) in keys {
      var i :| 0 <= i < |fs| && Lower(fs[i].0) in keys;
      var j :| 0 <= j < |keys| && keys[j] == Lower(fs[i].0);
      assert keys[j] == lowered[i];
    }
  }

  /** Only a configured key written in lower case can ever flag a body: a
      key such as "Token" never matches, whatever the body holds. */
  lemma BodyMatchNeedsLowerCaseKey(keys: seq<string>, b: Body)
    requires InspectBody(keys, b)
    ensures exists j :: 0 <= j < |keys| && IsLowerCase(keys[j])
  {
    var fs := b.parsed.value.fields;
    var lowered := LowerAll(KeysOf(fs));
    LowerAllAt(KeysOf(fs));
    var j :| 0 <= j < |keys| && keys[j] in lowered;
    var i :| 0 <= i < |lowered| && lowered[i] == keys[j];
    LowerIsLowerCase(KeysOf(fs)[i]);
  }

  /** Whether the call is refused, and the events logged in deciding. */
  datatype Decision = Decision(blocked: bool, events: seq<Event>)

  /** `shouldBlockTransport(context, url, body)`: the URL is looked at first,
      and only when it is a non-empty string; the body only when it is a
      non-empty string. Each refusal logs one event naming the part. */
  function ShouldBlock(cfg: Config, context: string, u: UrlArg, b: Body): Decision {
    var meta := TransportMeta(u, context);
    if UrlPresent(u) && InspectUrl(cfg.forbiddenKeys, u) then
      Decision(true, [TransportBlock(context, "forbidden_key_in_url", meta)])
    else if TextPresent(b) && InspectBody(cfg.forbiddenKeys, b) then
      Decision(true, [TransportBlock(context, "forbidden_key_in_body", meta)])
    else
      Decision(false, [])
  }

  /** A call is refused exactly when its URL or its body names a configured
      key; one event is logged for a refusal, naming the URL when both do,
      and none otherwise. */
  lemma ShouldBlockMeaning(cfg: Config, context: string, u: UrlArg, b: Body)
    ensures var d := ShouldBlock(cfg, context, u, b);
            var urlHit := UrlPresent(u) && u.search.Some? && HitsAny(u.search.value, cfg.forbiddenKeys);
            var bodyHit := TextPresent(b) && InspectBody(cfg.forbiddenKeys, b);
            && (d.blocked <==> urlHit || bodyHit)
            && (!d.blocked ==> d.events == [])
            && (urlHit ==> d.events == [TransportBlock(context, "forbidden_key_in_url", TransportMeta(u, context))])
            && (!urlHit && bodyHit ==> d.events == [TransportBlock(context, "forbidden_key_in_body", TransportMeta(u, context))])
  {
    InspectUrlMeaning(cfg.forbiddenKeys, u);
  }

  /** The decision does not depend on the mode: even in "monitor" mode a
      flagged call is refused. */
  lemma ModeDoesNotMatter(cfg: Config, mode: Mode, context: string, u: UrlArg, b: Body)
    ensures ShouldBlock(cfg.(mode := mode), context, u, b) == ShouldBlock(cfg, context, u, b)
  {
  }

  /** Only the URL's parameter names matter, compared exactly: a query
      parameter "Token" passes the default keys. */
  lemma UrlKeysAreCaseSensitive(text: string, b: Body)
    requires text != ""
    requires !TextPresent(b)
    ensures !ShouldBlock(DefaultConfig, "fetch", Url(text, Some([("Token", "abc")])), b).blocked
  {
    var ps := [("Token", "abc")];
    assert !HitsAny(ps, DefaultKeys) by {
      assert "Token" !in DefaultKeys;
    }
    InspectUrlMeaning(DefaultKeys, Url(text, Some(ps)));
  }

  /** A body key is lower-cased before the comparison: {"Access_Token": 1}
      is refused under the default keys. */
  lemma BodyKeysAreLowered(u: UrlArg, text: string, fs: Fields)
    requires !UrlPresent(u) && text != ""
    requires fs == [("Access_Token", Num(1))]
    ensures ShouldBlock(DefaultConfig, "fetch", u, Text(text, Some(Obj(false, fs)))).blocked
  {
    LowersToAccessToken(fs[0].0);
    assert Lower(fs[0].0) in DefaultKeys by {
      assert DefaultKeys[1] == "access_token";
    }
    InspectBodyMeaning(DefaultKeys, text, false, fs);
  }

  /** The message the patched fetch rejects with. */
  const FetchError: string := "Requête bloquée par Ultra Shield (clé sensible détectée)."

  /** The message the patched XMLHttpRequest#send throws. */
  const XhrError: string := "Requête XHR bloquée par Ultra Shield."

  /** What a call through the patched transport comes to: refused with a
      message, or handed to the original. */
  datatype Outcome = Refused(message: string) | Delegated

  /** `window.fetch(input, init)` after `layers` patches: each wrapper checks
      the URL (`input` itself or `input.url`) and `init.body`, and rejects or
      calls the one inside it with the same arguments. */
  function Fetch(cfg: Config, layers: nat, input: FetchInput, init: Init): (Outcome, seq<Event>) {
    if layers == 0 then (Delegated, [])
    else
      var d := ShouldBlock(cfg, "fetch", FetchUrl(input), FetchBody(init));
      if d.blocked then (Refused(FetchError), d.events)
      else Fetch(cfg, layers - 1, input, init)
  }

  /** A patched fetch rejects exactly the calls the check refuses, logging
      the check's event, and otherwise reaches the original; patching more
      than once changes nothing observable. */
  lemma {:induction false} FetchLayers(cfg: Config, layers: nat, input: FetchInput, init: Init)
    requires layers >= 1
    ensures var d := ShouldBlock(cfg, "fetch", FetchUrl(input), FetchBody(init));
            Fetch(cfg, layers, input, init) == (if d.blocked then (Refused(FetchError), d.events) else (Delegated, []))
  {
    if layers > 1 {
      FetchLayers(cfg, layers - 1, input, init);
    }
  }

  /** `xhr.send(body)` after `layers` patches, on a request last opened with
      `verb` and `url` (None and NoUrl before `open`). A refusal logs the
      check's event, then "blocked_before_send", then throws. */
  function XhrSend(cfg: Config, layers: nat, verb: Option<string>, url: UrlArg, body: Body): (Outcome, seq<Event>) {
    if layers == 0 then (Delegated, [])
    else
      var d := ShouldBlock(cfg, "xhr", url, body);
      if d.blocked then
        (Refused(XhrError), d.events + [TransportBlock("xhr", "blocked_before_send", XhrMeta(verb, url))])
      else XhrSend(cfg, layers - 1, verb, url, body)
  }

  /** A patched send throws exactly when the check refuses, logging two
      events; otherwise it reaches the original send. */
  lemma {:induction false} XhrLayers(cfg: Config, layers: nat, verb: Option<string>, url: UrlArg, body: Body)
    requires layers >= 1
    ensures var d := ShouldBlock(cfg, "xhr", url, body);
            var r := XhrSend(cfg, layers, verb, url, body);
            && (r.0.Refused? <==> d.blocked)
            && (d.blocked ==> r == (Refused(XhrError), d.events + [TransportBlock("xhr", "blocked_before_send", XhrMeta(verb, url))]))
            && (!d.blocked ==> r == (Delegated, []))
  {
    if layers > 1 {
      XhrLayers(cfg, layers - 1, verb, url, body);
    }
  }

  /** Before `open`, only the body of a send can be refused. */
  lemma XhrBeforeOpen(cfg: Config, layers: nat, body: Body)
    requires layers >= 1
    ensures XhrSend(cfg, layers, None, NoUrl, body).0.Refused? <==> TextPresent(body) && InspectBody(cfg.forbiddenKeys, body)
  {
    XhrLayers(cfg, layers, None, NoUrl, body);
  }

  /** The body sendBeacon inspects: a string as it is, anything else (a Blob,
      an ArrayBuffer, FormData) as `null`. */
  function BeaconBody(data: Body): (b: Body)
    ensures b.Text? <==> data.Text?
    ensures data.Text? ==> b == data
  {
    if data.Text? then data else NoBody
  }

  /** `navigator.sendBeacon(url, data)` after `layers` patches: false when
      refused, otherwise what the original returns (`delivered`). */
  function SendBeacon(cfg: Config, layers: nat, url: UrlArg, data: Body, delivered: bool): (bool, seq<Event>) {
    if layers == 0 then (delivered, [])
    else
      var d := ShouldBlock(cfg, "sendBeacon", url, BeaconBody(data));
      if d.blocked then (false, d.events)
      else SendBeacon(cfg, layers - 1, url, data, delivered)
  }

  /** A patched sendBeacon returns false exactly on a refusal, and a body
      that is not a string is never inspected. */
  lemma {:induction false} BeaconLayers(cfg: Config, layers: nat, url: UrlArg, data: Body, delivered: bool)
    requires layers >= 1
    ensures var d := ShouldBlock(cfg, "sendBeacon", url, BeaconBody(data));
            SendBeacon(cfg, layers, url, data, delivered) == (if d.blocked then (false, d.events) else (delivered, []))
    ensures !data.Text? ==> ShouldBlock(cfg, "sendBeacon", url, BeaconBody(data)) == ShouldBlock(cfg, "sendBeacon", url, NoBody)
  {
    if layers > 1 {
      BeaconLayers(cfg, layers - 1, url, data, delivered);
    }
  }
}
