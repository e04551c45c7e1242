/** Single Shield (single-shield.js): a self-contained variant of the
    firewall with a fixed list of six keys. Its scanner always redacts, its
    middleware ignores cookies, its location cleaner rewrites the whole
    fragment once anything was dirty, and its fetch wrapper compares body
    keys exactly. */
module SingleShield {
  import opened Text
  import opened Js
  import opened SearchParams
  import opened Outbound
  import opened Browser
  import UltraEnforce
  import UltraTransport
  import UltraLocation

  const ForbiddenKeys: seq<string> :=
    ["token", "access_token", "id_token", "auth_token", "jwt", "refresh_token"]

  /** The value a forbidden key's value is replaced with. */
  const Redaction: Value := Str("[REDACTED_TOKEN]")

  /** `FORBIDDEN_KEYS.includes(key.toLowerCase())` */
  predicate IsForbidden(k: string) {
    Lower(k) in ForbiddenKeys
  }

  predicate HasForbidden(fs: Fields) {
    exists i :: 0 <= i < |fs| && IsForbidden(fs[i].0)
  }

  /** One entry of the sanitized copy. */
  function RedactEntry(e: (string, Value)): (r: (string, Value))
    ensures r.0 == e.0
    ensures IsForbidden(e.0) ==> r.1 == Redaction
    ensures !IsForbidden(e.0) ==> r.1 == e.1
  {
    if IsForbidden(e.0) then (e.0, Redaction) else e
  }

  /** The sanitized copy of a list of entries: same keys in the same order.
      (Object keys are distinct, so each assignment into `{}` appends.) */
  function Redacted(fs: Fields): (r: Fields)
    ensures |r| == |fs|
    ensures forall i :: 0 <= i < |fs| ==> r[i] == RedactEntry(fs[i])
  {
    seq(|fs|, i requires 0 <= i < |fs| => RedactEntry(fs[i]))
  }

  datatype ScanResult = ScanResult(incident: bool, sanitized: Value)

  /** `scanObject(obj)`: a falsy value gives no incident and `null`; any other
      value's own entries are copied into a plain object, forbidden keys
      redacted. */
  function Scan(obj: Value): (r: ScanResult)
    ensures !Truthy(obj) ==> r == ScanResult(false, Null)
    ensures Truthy(obj) ==> r.sanitized.Obj? && !r.sanitized.isArray
  {
    if !Truthy(obj) then ScanResult(false, Null)
    else ScanResult(HasForbidden(OwnEntries(obj)), Obj(false, Redacted(OwnEntries(obj))))
  }

  /** The loop of `scanObject` (the console warning is not modelled). */
  method ScanObject(obj: Value) returns (r: ScanResult)
    ensures r == Scan(obj)
  {
    if !Truthy(obj) {
      return ScanResult(false, Null);
    }
    var entries := OwnEntries(obj);
    var incident := false;
    var sanitized: Fields := [];
    var i := 0;
    while i < |entries|
      invariant 0 <= i <= |entries|
      invariant incident == HasForbidden(entries[..i])
      invariant sanitized == Redacted(entries[..i])
    {
      var key := entries[i].0;
      assert entries[..i + 1] == entries[..i] + [entries[i]];
      if IsForbidden(key) {
        incident := true;
        sanitized := sanitized + [(key, Redaction)];
      } else {
        assert HasForbidden(entries[..i + 1]) ==> HasForbidden(entries[..i]) by {
          if HasForbidden(entries[..i + 1]) {
            var j :| 0 <= j < i + 1 && IsForbidden(entries[..i + 1][j].0);
            assert j < i && entries[..i + 1][j] == entries[..i][j];
          }
        }
        sanitized := sanitized + [entries[i]];
      }
      i := i + 1;
    }
    assert entries[..i] == entries;
    r := ScanResult(incident, Obj(false, sanitized));
  }

  /** The copy keeps every key in order; it holds the redaction value under
      each forbidden key and the original value under every other; and the
      incident flag says whether some key lower-cases to a listed one. */
  lemma ScanMeaning(obj: Value)
    requires Truthy(obj)
    ensures var fs := OwnEntries(obj);
            var out := Scan(obj).sanitized.fields;
            && KeysOf(out) == KeysOf(fs)
            && (forall i :: 0 <= i < |fs| ==> out[i].1 == if IsForbidden(fs[i].0) then Redaction else fs[i].1)
            && (Scan(obj).incident <==> exists i :: 0 <= i < |fs| && Lower(fs[i].0) in ForbiddenKeys)
  {
    var fs := OwnEntries(obj);
    var out := Scan(obj).sanitized.fields;
    KeysOfAt(fs);
    KeysOfAt(out);
    assert forall i :: 0 <= i < |fs| ==> KeysOf(out)[i] == KeysOf(fs)[i];
  }

  /** Scanning the sanitized copy again changes nothing and reports the same
      incident: redaction is idempotent and the key names are kept. */
  lemma RescanIsStable(obj: Value)
    ensures Scan(Scan(obj).sanitized) == Scan(obj)
  {
    if Truthy(obj) {
      var fs := OwnEntries(obj);
      var out := Redacted(fs);
      assert OwnEntries(Scan(obj).sanitized) == out;
      assert Redacted(out) == out;
      assert HasForbidden(out) ==> HasForbidden(fs) by {
        if HasForbidden(out) {
          var i :| 0 <= i < |out| && IsForbidden(out[i].0);
          assert IsForbidden(fs[i].0);
        }
      }
      assert HasForbidden(fs) ==> HasForbidden(out) by {
        if HasForbidden(fs) {
          var i :| 0 <= i < |fs| && IsForbidden(fs[i].0);
          assert IsForbidden(out[i].0);
        }
      }
    }
  }

  // ---------------------------------------------------------------------
  // tokenShieldMiddleware
  // ---------------------------------------------------------------------

  const QueryMessage := "Les tokens sont interdits dans l’URL."
  const HeadersMessage := "En-têtes non conformes."
  const BodyMessage := "Corps non conforme."

  /** The headers as the middleware scans them: every key lower-cased. */
  function LoweredHeaders(r: ReqParts): Value {
    Obj(false, LowerKeys(OwnEntries(r.headers)))
  }

  /** `req.body || {}` */
  function BodyOrEmpty(r: ReqParts): Value {
    if Truthy(r.body) then r.body else Obj(false, [])
  }

  /** `tokenShieldMiddleware`: the query, then the lower-cased headers, then
      the body are scanned; the first incident answers 400, otherwise the
      request goes on. Cookies are not looked at. */
  function Decide(r: ReqParts): UltraEnforce.Verdict {
    if Scan(r.query).incident then UltraEnforce.Respond(400, "TOKEN_IN_QUERY", QueryMessage)
    else if Scan(LoweredHeaders(r)).incident then UltraEnforce.Respond(400, "TOKEN_IN_HEADERS", HeadersMessage)
    else if Scan(BodyOrEmpty(r)).incident then UltraEnforce.Respond(400, "TOKEN_IN_BODY", BodyMessage)
    else UltraEnforce.Next
  }

  /** The middleware as written: three scans with early returns. */
  method Middleware(r: ReqParts) returns (verdict: UltraEnforce.Verdict)
    ensures verdict == Decide(r)
  {
    var q := ScanObject(r.query);
    if q.incident {
      return UltraEnforce.Respond(400, "TOKEN_IN_QUERY", QueryMessage);
    }
    var lowered := LowerKeyed(OwnEntries(r.headers));
    var h := ScanObject(Obj(false, lowered));
    if h.incident {
      return UltraEnforce.Respond(400, "TOKEN_IN_HEADERS", HeadersMessage);
    }
    var b := ScanObject(if Truthy(r.body) then r.body else Obj(false, []));
    if b.incident {
      return UltraEnforce.Respond(400, "TOKEN_IN_BODY", BodyMessage);
    }
    verdict := UltraEnforce.Next;
  }

  /** A part holds a forbidden key (a falsy part holds none). */
  predicate PartHit(v: Value) {
    Truthy(v) && HasForbidden(OwnEntries(v))
  }

  /** A header name is forbidden exactly when its lower-cased copy is. */
  lemma HeaderHitIffForbiddenName(r: ReqParts)
    ensures Scan(LoweredHeaders(r)).incident <==> HasForbidden(OwnEntries(r.headers))
  {
    var fs := OwnEntries(r.headers);
    var low := LowerKeys(fs);
    LowerKeysShape(fs);
    KeysOfAt(low);
    if HasForbidden(low) {
      var i :| 0 <= i < |low| && IsForbidden(low[i].0);
      assert low[i].0 in KeysOf(low);
      var j :| 0 <= j < |fs| && Lower(fs[j].0) == low[i].0;
      LowerIsLowerCase(fs[j].0);
      LowerOfLowerCase(low[i].0);
      assert IsForbidden(fs[j].0);
    }
    if HasForbidden(fs) {
      var j :| 0 <= j < |fs| && IsForbidden(fs[j].0);
      assert HasLoweredKey(fs, Lower(fs[j].0));
      var k := Lower(fs[j].0);
      assert k in KeysOf(low);
      var i :| 0 <= i < |low| && KeysOf(low)[i] == k;
      LowerIsLowerCase(fs[j].0);
      LowerOfLowerCase(k);
      assert IsForbidden(low[i].0);
    }
  }

  /** The verdict in terms of the request as received: the first of query,
      headers and body that holds a forbidden key (in any letter case)
      decides the error; the request goes on exactly when none does, whatever
      the cookies hold. */
  lemma DecideMeaning(r: ReqParts, cookies: Value)
    ensures Decide(r) == Decide(r.(cookies := cookies))
    ensures Decide(r).Respond? ==> Decide(r).status == 400
    ensures Decide(r) == UltraEnforce.Next <==>
              !PartHit(r.query) && !HasForbidden(OwnEntries(r.headers)) && !PartHit(r.body)
    ensures (Decide(r).Respond? && Decide(r).error == "TOKEN_IN_QUERY") <==> PartHit(r.query)
    ensures (Decide(r).Respond? && Decide(r).error == "TOKEN_IN_HEADERS") <==>
              !PartHit(r.query) && HasForbidden(OwnEntries(r.headers))
    ensures (Decide(r).Respond? && Decide(r).error == "TOKEN_IN_BODY") <==>
              !PartHit(r.query) && !HasForbidden(OwnEntries(r.headers)) && PartHit(r.body)
  {
    HeaderHitIffForbiddenName(r);
    assert r.(cookies := cookies).headers == r.headers;
  }

  // ---------------------------------------------------------------------
  // cleanLocation
  // ---------------------------------------------------------------------

  /** The address after cleaning, and whether anything was removed. */
  datatype Cleaned = Cleaned(next: Loc, dirty: bool)

  /** `cleanLocation` on the address `loc`: listed parameters are removed
      from the query (which is rewritten only if one was there); a non-empty
      fragment is read as name=value pairs, listed names are removed, and it
      is rewritten in serialised form whether or not anything was removed.
      Names are compared exactly. */
  function Clean(loc: Loc): Cleaned {
    var ps := Parse(loc.search);
    var queryDirty := HitsAny(ps, ForbiddenKeys);
    var search := if queryDirty then Prefixed('?', Serialise(Strip(ps, ForbiddenKeys))) else loc.search;
    if loc.hash == "" then Cleaned(Loc(loc.pathname, search, ""), queryDirty)
    else
      var frag := Parse(loc.hash[1..]);
      Cleaned(Loc(loc.pathname, search, Prefixed('#', Serialise(Strip(frag, ForbiddenKeys)))),
              queryDirty || HitsAny(frag, ForbiddenKeys))
  }

  /** `cleanLocation()`: one `replaceState` with the cleaned URL if anything
      was removed; an error from it is swallowed (only a console warning). */
  method CleanLocation(page: Page)
    modifies page
    ensures var c := Clean(old(page.location));
            && page.calls == old(page.calls) + (if c.dirty then 1 else 0)
            && if c.dirty && page.Refusal(old(page.calls)).None? then
              page.location == c.next && page.replaced == old(page.replaced) + [Href(page.origin, c.next)]
            else
              page.location == old(page.location) && page.replaced == old(page.replaced)
  {
    var loc := page.location;
    var params := Parse(loc.search);
    var kept, dirty := DeleteKeys(params, ForbiddenKeys);
    var search := if dirty then Prefixed('?', Serialise(kept)) else loc.search;
    var hash := loc.hash;
    if hash != "" {
      var frag := Parse(hash[1..]);
      var fragKept, fragDirty := DeleteKeys(frag, ForbiddenKeys);
      dirty := dirty || fragDirty;
      hash := Prefixed('#', Serialise(fragKept));
    }
    if dirty {
      var next := Loc(loc.pathname, search, hash);
      var thrown := page.ReplaceState(Href(page.origin, next), next);
    }
  }

  /** The address is rewritten exactly when the query or the fragment holds
      a listed name; the path never changes, nor does a clean query. */
  lemma CleanDirtyMeaning(loc: Loc)
    ensures Clean(loc).dirty <==>
              HitsAny(Parse(loc.search), ForbiddenKeys)
              || (loc.hash != "" && HitsAny(Parse(loc.hash[1..]), ForbiddenKeys))
    ensures Clean(loc).next.pathname == loc.pathname
    ensures !HitsAny(Parse(loc.search), ForbiddenKeys) ==> Clean(loc).next.search == loc.search
  {
  }

  /** After cleaning, the query holds no listed name and, when it was dirty,
      parses to the old pairs minus the listed ones, in their order. */
  lemma CleanQueryLeftClean(loc: Loc)
    ensures !HitsAny(Parse(Clean(loc).next.search), ForbiddenKeys)
    ensures HitsAny(Parse(loc.search), ForbiddenKeys) ==>
              Parse(Clean(loc).next.search) == Strip(Parse(loc.search), ForbiddenKeys)
  {
    var search := Clean(loc).next.search;
    var ps := Parse(loc.search);
    if HitsAny(ps, ForbiddenKeys) {
      var kept := Strip(ps, ForbiddenKeys);
      assert search == Prefixed('?', Serialise(kept));
      SerialiseEmpty(kept);
      if kept == [] {
        ParseEmpty(search);
      } else {
        ParseSerialisedQuery(search, kept);
      }
      StripLeavesNoKey(ps, ForbiddenKeys);
    }
  }

  /** A non-empty fragment comes out empty exactly when nothing of it was
      kept; what was kept holds no listed name and is what the new fragment
      parses to. */
  lemma CleanFragmentLeftClean(loc: Loc)
    requires loc.hash != ""
    ensures var kept := Strip(Parse(loc.hash[1..]), ForbiddenKeys);
            var hash := Clean(loc).next.hash;
            && (hash == "" <==> kept == [])
            && !HitsAny(kept, ForbiddenKeys)
            && (hash != "" ==> Parse(hash[1..]) == kept)
  {
    var frag := Parse(loc.hash[1..]);
    var kept := Strip(frag, ForbiddenKeys);
    var hash := Clean(loc).next.hash;
    assert hash == Prefixed('#', Serialise(kept));
    SerialiseEmpty(kept);
    StripLeavesNoKey(frag, ForbiddenKeys);
    if kept != [] {
      ParseSerialised(hash[1..], kept);
    }
  }

  /** The query "?token=abc" is dirty and cleans to nothing. */
  lemma TokenAbcCleaned(s: string)
    requires s == "?token=abc"
    ensures HitsAny(Parse(s), ForbiddenKeys)
    ensures Prefixed('?', Serialise(Strip(Parse(s), ForbiddenKeys))) == ""
  {
    var ps := [("token", "abc")];
    UltraLocation.PlainNames();
    ParsePlainQueryOne(s, ps[0]);
    assert ps[1..] == [];
    assert Strip(ps, ForbiddenKeys) == [];
  }

  /** The clean fragment "#section" is written back as "#section=". */
  lemma SectionRewritten(hash: string, out: string)
    requires hash == "#section" && out == "#section="
    ensures !HitsAny(Parse(hash[1..]), ForbiddenKeys)
    ensures Prefixed('#', Serialise(Strip(Parse(hash[1..]), ForbiddenKeys))) == out
  {
    var content := hash[1..];
    assert "section" !in ForbiddenKeys;
    HitsOne(("section", ""), ForbiddenKeys);
    assert Prefixed('#', Serialise([("section", "")])) == out by {
      UltraLocation.PlainNames();
      UltraLocation.OnePair('#', ("section", ""), out);
    }
    assert content == "section";
    assert Parse(content) == [("section", "")] by {
      UltraLocation.PlainNames();
      ParsePlainName(content);
    }
  }

  /** A clean fragment is rewritten too once the query was dirty: a bare
      anchor "#section" is read as the pair section= and written back with
      its '=' ("/p?token=abc#section" becomes "/p#section="). */
  lemma AnchorGainsEquals(loc: Loc, next: Loc)
    requires loc.search == "?token=abc" && loc.hash == "#section"
    requires next == Loc(loc.pathname, "", "#section=")
    ensures Clean(loc) == Cleaned(next, true)
  {
    TokenAbcCleaned(loc.search);
    SectionRewritten(loc.hash, next.hash);
  }

  // ---------------------------------------------------------------------
  // patchFetch
  // ---------------------------------------------------------------------

  const UrlError := "Token interdit dans l’URL (politique de sécurité)"
  const BodyError := "Token interdit dans le body JSON"

  /** The URL resolves and its query has a parameter named exactly by a
      listed key. A URL that does not resolve is let through. */
  predicate UrlHit(u: UrlArg) {
    u.Url? && u.search.Some? && HitsAny(u.search.value, ForbiddenKeys)
  }

  /** The body is a string that parses to a value other than null whose own
      keys include a listed key exactly (no lower-casing). A body that does
      not parse, or parses to null, is let through. */
  predicate BodyHit(b: Body) {
    b.Text? && b.parsed.Some? && !IsNullish(b.parsed.value)
    && UltraTransport.SomeIncluded(ForbiddenKeys, KeysOf(OwnEntries(b.parsed.value)))
  }

  /** One wrapper's check: the rejection message, if any. */
  function FetchCheck(input: FetchInput, init: Init): Option<string> {
    if UrlHit(FetchUrl(input)) then Some(UrlError)
    else if BodyHit(FetchBody(init)) then Some(BodyError)
    else None
  }

  /** `fetch(input, init)` after `patchFetch` ran `layers` times: each
      wrapper checks and either rejects or calls the one it replaced. */
  function Fetch(layers: nat, input: FetchInput, init: Init): UltraTransport.Outcome {
    if layers == 0 then UltraTransport.Delegated
    else match FetchCheck(input, init)
      case Some(message) => UltraTransport.Refused(message)
      case None => Fetch(layers - 1, input, init)
  }

  /** Wrapping several times behaves as wrapping once. */
  lemma {:induction false} FetchLayers(layers: nat, input: FetchInput, init: Init)
    requires layers >= 1
    ensures Fetch(layers, input, init) == Fetch(1, input, init)
  {
    if layers > 1 && FetchCheck(input, init).None? {
      FetchLayers(layers - 1, input, init);
    }
  }

  /** A wrapped fetch refuses with the URL message exactly when the URL
      holds a listed parameter, with the body message exactly when only the
      body holds a listed key, and delegates otherwise. */
  lemma FetchMeaning(input: FetchInput, init: Init)
    ensures Fetch(1, input, init) == UltraTransport.Refused(UrlError) <==> UrlHit(FetchUrl(input))
    ensures Fetch(1, input, init) == UltraTransport.Refused(BodyError) <==>
              !UrlHit(FetchUrl(input)) && BodyHit(FetchBody(init))
    ensures Fetch(1, input, init) == UltraTransport.Delegated <==>
              !UrlHit(FetchUrl(input)) && !BodyHit(FetchBody(init))
  {
    assert Fetch(0, input, init) == UltraTransport.Delegated;
  }

  /** Body keys are compared exactly: `{"Token": 1}` is let through, where
      Ultra Shield's transport check would block it. */
  lemma BodyKeysAreExact(text: string, fs: Fields)
    requires fs == [("Token", Num(1))]
    ensures Fetch(1, WithoutUrlField, Init(Text(text, Some(Obj(false, fs))))) == UltraTransport.Delegated
  {
    assert KeysOf(fs) == ["Token"];
    assert !UltraTransport.SomeIncluded(ForbiddenKeys, KeysOf(fs));
  }
}
