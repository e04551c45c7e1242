/** What `hardenLocation` (ultra-shield.js, section 4) does to the address
    bar, as a function of the configuration, the current address and whether
    `history.replaceState` throws. Keys are compared exactly, case included.
    UltraShield.Firewall.HardenLocation performs it step by step on a Page. */
module UltraLocation {
  import opened Js
  import opened SearchParams
  import opened Browser
  import opened UltraConfig

  /** The query step: when the search is non-empty and has a parameter named
      by a configured key, the address with every such parameter removed. */
  function CleanSearch(keys: seq<string>, loc: Loc): Option<Loc> {
    if loc.search == "" then None
    else
      var ps := Parse(loc.search);
      if !HitsAny(ps, keys) then None
      else Some(loc.(search := Prefixed('?', Serialise(Strip(ps, keys)))))
  }

  /** `hash.startsWith("#") ? hash.slice(1) : hash` */
  function FragmentContent(hash: string): (r: string)
    ensures hash != [] && hash[0] == '#' ==> hash == "#" + r
    ensures (hash == [] || hash[0] != '#') ==> r == hash
  {
    if hash != [] && hash[0] == '#' then hash[1..] else hash
  }

  /** The fragment step: the same removal applied to the fragment read as
      name=value pairs. */
  function CleanFragment(keys: seq<string>, loc: Loc): Option<Loc> {
    if loc.hash == "" then None
    else
      var ps := Parse(FragmentContent(loc.hash));
      if !HitsAny(ps, keys) then None
      else Some(loc.(hash := Prefixed('#', Serialise(Strip(ps, keys)))))
  }

  /** The query step of `hardenLocation`, performed: parse the search, delete
      every configured key, and rebuild the address if something was removed. */
  method CleanedSearch(keys: seq<string>, loc: Loc) returns (q: Option<Loc>)
    ensures q == CleanSearch(keys, loc)
  {
    q := None;
    if loc.search != "" {
      var kept, dirty := DeleteKeys(Parse(loc.search), keys);
      if dirty {
        q := Some(loc.(search := Prefixed('?', Serialise(kept))));
      }
    }
  }

  /** The fragment step of `hardenLocation`, performed. */
  method CleanedFragment(keys: seq<string>, loc: Loc) returns (f: Option<Loc>)
    ensures f == CleanFragment(keys, loc)
  {
    f := None;
    if loc.hash != "" {
      var kept, dirty := DeleteKeys(Parse(FragmentContent(loc.hash)), keys);
      if dirty {
        f := Some(loc.(hash := Prefixed('#', Serialise(kept))));
      }
    }
  }

  /** The resulting address, the URLs passed to `replaceState` that
      succeeded, and the events logged. */
  datatype Hardened = Hardened(loc: Loc, urls: seq<string>, events: seq<Event>)

  /** One call of `hardenLocation`. Each step that removed something calls
      `replaceState` with the rebuilt relative URL, and the fragment step
      reads the address the query step left. `first` and `second` are what
      the first and the second `replaceState` call would throw; when one
      throws, the error is logged and the call ends there. */
  function Harden(cfg: Config, loc: Loc, first: Option<string>, second: Option<string>): Hardened {
    var q := if Enabled(cfg, "query") then CleanSearch(cfg.forbiddenKeys, loc) else None;
    if q.Some? && first.Some? then Hardened(loc, [], [LocationError(first.value)])
    else
      var loc1 := if q.Some? then q.value else loc;
      var urls1 := if q.Some? then [RelativeUrl(loc1)] else [];
      var f := if Enabled(cfg, "urlFragment") then CleanFragment(cfg.forbiddenKeys, loc1) else None;
      var refusal := if q.Some? then second else first;
      if f.Some? && refusal.Some? then Hardened(loc1, urls1, [LocationError(refusal.value)])
      else if f.Some? then Hardened(f.value, urls1 + [RelativeUrl(f.value)], [])
      else Hardened(loc1, urls1, [])
  }

  /** What the two steps leave, given the address each would rebuild. */
  function Steps(loc: Loc, q: Option<Loc>, f: Option<Loc>, first: Option<string>, second: Option<string>): Hardened {
    if q.Some? && first.Some? then Hardened(loc, [], [LocationError(first.value)])
    else
      var loc1 := if q.Some? then q.value else loc;
      var urls1 := if q.Some? then [RelativeUrl(loc1)] else [];
      var refusal := if q.Some? then second else first;
      if f.Some? && refusal.Some? then Hardened(loc1, urls1, [LocationError(refusal.value)])
      else if f.Some? then Hardened(f.value, urls1 + [RelativeUrl(f.value)], [])
      else Hardened(loc1, urls1, [])
  }

  lemma HardenBySteps(cfg: Config, loc: Loc, first: Option<string>, second: Option<string>, q: Option<Loc>, f: Option<Loc>)
    requires q == if Enabled(cfg, "query") then CleanSearch(cfg.forbiddenKeys, loc) else None
    requires f == if Enabled(cfg, "urlFragment") then CleanFragment(cfg.forbiddenKeys, if q.Some? then q.value else loc) else None
    ensures Harden(cfg, loc, first, second) == Steps(loc, q, f, first, second)
  {
  }

  /** The `replaceState` call of either step: `step` is the rebuilt
      address when the step removed something. Returns what the call threw. */
  method ReplaceStep(page: Page, step: Option<Loc>) returns (thrown: Option<string>)
    modifies page
    ensures thrown == if step.Some? then page.Refusal(old(page.calls)) else None
    ensures page.calls == old(page.calls) + (if step.Some? then 1 else 0)
    ensures page.location == if step.Some? && thrown.None? then step.value else old(page.location)
    ensures page.replaced == old(page.replaced) + if step.Some? && thrown.None? then [RelativeUrl(step.value)] else []
  {
    thrown := None;
    if step.Some? {
      thrown := page.ReplaceState(RelativeUrl(step.value), step.value);
    }
  }

  /** The body of `hardenLocation` on a page: the query step, then the
      fragment step on the address the query step left, as the live
      `window.location` does. A throwing `replaceState` ends the call; its
      message is the one error event returned. */
  method HardenPage(cfg: Config, page: Page) returns (events: seq<Event>)
    modifies page
    ensures var h := Harden(cfg, old(page.location), page.Refusal(old(page.calls)), page.Refusal(old(page.calls) + 1));
            && page.location == h.loc && page.replaced == old(page.replaced) + h.urls && events == h.events
            && page.calls == old(page.calls) + |h.urls| + |h.events|
  {
    var loc := page.location;
    ghost var calls := page.calls;
    ghost var first, second := page.Refusal(calls), page.Refusal(calls + 1);
    var q: Option<Loc> := None;
    if Enabled(cfg, "query") {
      q := CleanedSearch(cfg.forbiddenKeys, loc);
    }
    ghost var loc1 := if q.Some? then q.value else loc;
    ghost var f' := if Enabled(cfg, "urlFragment") then CleanFragment(cfg.forbiddenKeys, loc1) else None;
    HardenBySteps(cfg, loc, first, second, q, f');
    ghost var replaced := page.replaced;
    var thrown := ReplaceStep(page, q);
    if thrown.Some? {
      events := [LocationError(thrown.value)];
      assert Steps(loc, q, f', first, second) == Hardened(loc, [], events);
      return;
    }
    ghost var urls1 := if q.Some? then [RelativeUrl(loc1)] else [];
    assert page.location == loc1 && page.replaced == replaced + urls1;
    ghost var refusal := if q.Some? then second else first;
    if q.Some? {
      assert page.calls == calls + 1;
    } else {
      assert page.calls == calls;
    }
    assert page.Refusal(page.calls) == refusal;
    var f: Option<Loc> := None;
    if Enabled(cfg, "urlFragment") {
      f := CleanedFragment(cfg.forbiddenKeys, page.location);
    }
    thrown := ReplaceStep(page, f);
    assert thrown == if f.Some? then refusal else None;
    events := if thrown.Some? then [LocationError(thrown.value)] else [];
    if f.None? {
      assert Steps(loc, q, f', first, second) == Hardened(loc1, urls1, []);
    } else if thrown.Some? {
      assert Steps(loc, q, f', first, second) == Hardened(loc1, urls1, events);
    } else {
      assert Steps(loc, q, f', first, second) == Hardened(f.value, urls1 + [RelativeUrl(f.value)], []);
    }
  }

  /** The query holds a configured key and its step is enabled. */
  predicate QueryDirty(cfg: Config, loc: Loc) {
    Enabled(cfg, "query") && loc.search != "" && HitsAny(Parse(loc.search), cfg.forbiddenKeys)
  }

  /** The fragment holds a configured key and its step is enabled. */
  predicate FragmentDirty(cfg: Config, loc: Loc) {
    Enabled(cfg, "urlFragment") && loc.hash != ""
    && HitsAny(Parse(FragmentContent(loc.hash)), cfg.forbiddenKeys)
  }

  /** `replaceState` is called once for each dirty part and never otherwise;
      the path is never changed, a clean or disabled part is left exactly as
      it was, and nothing is logged when `replaceState` succeeds. */
  lemma ReplacesOnlyDirtyParts(cfg: Config, loc: Loc)
    ensures var h := Harden(cfg, loc, None, None);
            && |h.urls| == (if QueryDirty(cfg, loc) then 1 else 0) + (if FragmentDirty(cfg, loc) then 1 else 0)
            && h.events == []
            && h.loc.pathname == loc.pathname
            && (!QueryDirty(cfg, loc) ==> h.loc.search == loc.search)
            && (!FragmentDirty(cfg, loc) ==> h.loc.hash == loc.hash)
            && (QueryDirty(cfg, loc) ==> h.urls[0] == RelativeUrl(CleanSearch(cfg.forbiddenKeys, loc).value))
  {
  }

  /** Where the hardened query and fragment come from when their parts are dirty. */
  lemma HardenedParts(cfg: Config, loc: Loc)
    ensures Harden(cfg, loc, None, None).loc.search ==
              if QueryDirty(cfg, loc) then Prefixed('?', Serialise(Strip(Parse(loc.search), cfg.forbiddenKeys)))
              else loc.search
    ensures FragmentDirty(cfg, loc) ==>
              Harden(cfg, loc, None, None).loc.hash == Prefixed('#', Serialise(Strip(Parse(FragmentContent(loc.hash)), cfg.forbiddenKeys)))
  {
  }

  /** After hardening with the query step enabled, no parameter of the query
      is named by a configured key; when the query was dirty, it parses to
      the old pairs minus those, in their order, and it is empty (no '?')
      exactly when nothing was kept. */
  lemma QueryLeftClean(cfg: Config, loc: Loc)
    requires Enabled(cfg, "query")
    ensures var h := Harden(cfg, loc, None, None);
            && !HitsAny(Parse(h.loc.search), cfg.forbiddenKeys)
            && (QueryDirty(cfg, loc) ==>
                  && Parse(h.loc.search) == Strip(Parse(loc.search), cfg.forbiddenKeys)
                  && (h.loc.search == "" <==> Strip(Parse(loc.search), cfg.forbiddenKeys) == []))
  {
    var keys := cfg.forbiddenKeys;
    var search := Harden(cfg, loc, None, None).loc.search;
    HardenedParts(cfg, loc);
    if !QueryDirty(cfg, loc) {
      if loc.search == "" {
        ParseEmpty(loc.search);
      }
    } else {
      var kept := Strip(Parse(loc.search), keys);
      if kept == [] {
        ParseEmpty(search);
      }
      SerialiseEmpty(kept);
      if kept != [] {
        ParseSerialisedQuery(search, kept);
      }
      StripLeavesNoKey(Parse(loc.search), keys);
    }
  }

  /** When the fragment was dirty, it is empty (no '#') exactly when nothing
      was kept, it parses to the old pairs minus the configured ones, in
      their order, and none of those is left. */
  lemma FragmentLeftClean(cfg: Config, loc: Loc)
    requires FragmentDirty(cfg, loc)
    ensures var h := Harden(cfg, loc, None, None);
            var kept := Strip(Parse(FragmentContent(loc.hash)), cfg.forbiddenKeys);
            && (h.loc.hash == "" <==> kept == [])
            && Parse(FragmentContent(h.loc.hash)) == kept
            && !HitsAny(Parse(FragmentContent(h.loc.hash)), cfg.forbiddenKeys)
  {
    var keys := cfg.forbiddenKeys;
    var content := FragmentContent(loc.hash);
    var kept := Strip(Parse(content), keys);
    var hash := Harden(cfg, loc, None, None).loc.hash;
    HardenedParts(cfg, loc);
    assert hash == Prefixed('#', Serialise(kept));
    SerialiseEmpty(kept);
    StripLeavesNoKey(Parse(content), keys);
    if kept == [] {
      ParseEmpty(FragmentContent(hash));
    } else {
      assert FragmentContent(hash) == Serialise(kept);
      ParseSerialised(FragmentContent(hash), kept);
    }
  }

  /** A `replaceState` that throws keeps the address and the URLs recorded
      before it, nothing after it runs, and one error event with its message
      is logged; nothing is rethrown. So when the first call throws the
      address is left as it was; when the query call succeeds and the
      fragment call throws, the query stays cleaned and the fragment keeps
      its keys. */
  lemma RefusalLoggedOnce(cfg: Config, loc: Loc, first: Option<string>, second: Option<string>)
    ensures |Harden(cfg, loc, first, second).events| <= 1
    ensures var h := Harden(cfg, loc, first, second);
            first.Some? ==>
              && h.loc == loc && h.urls == []
              && h.events == (if QueryDirty(cfg, loc) || FragmentDirty(cfg, loc) then [LocationError(first.value)] else [])
    ensures var h := Harden(cfg, loc, first, second);
            first.None? && QueryDirty(cfg, loc) && second.Some? ==>
              var loc1 := CleanSearch(cfg.forbiddenKeys, loc).value;
              && h.loc == loc1 && h.urls == [RelativeUrl(loc1)]
              && h.events == (if FragmentDirty(cfg, loc1) then [LocationError(second.value)] else [])
  {
  }

  /** Hardening is idempotent: on the address one call leaves, a second
      call finds nothing to remove, calls `replaceState` no more and logs
      nothing. */
  lemma HardenIsIdempotent(cfg: Config, loc: Loc)
    ensures var once := Harden(cfg, loc, None, None).loc;
            Harden(cfg, once, None, None) == Hardened(once, [], [])
  {
    var once := Harden(cfg, loc, None, None).loc;
    ReplacesOnlyDirtyParts(cfg, loc);
    if Enabled(cfg, "query") {
      QueryLeftClean(cfg, loc);
    }
    assert !QueryDirty(cfg, once);
    if FragmentDirty(cfg, loc) {
      FragmentLeftClean(cfg, loc);
    }
    assert !FragmentDirty(cfg, once);
  }

  /** Which of the names used below are default keys (compared exactly). */
  lemma DefaultKeyNames()
    ensures "token" in DefaultKeys && "jwt" in DefaultKeys
    ensures "Token" !in DefaultKeys && "tab" !in DefaultKeys && "section" !in DefaultKeys
    ensures "view" !in DefaultKeys && "?jwt" !in DefaultKeys
  {
  }

  /** The names and values used below need no escaping. */
  lemma PlainNames()
    ensures Plain("tab") && Plain("token") && Plain("Token") && Plain("view") && Plain("jwt")
    ensures Plain("section") && Plain("1") && Plain("abc") && Plain("xyz") && Plain("grid")
  {
  }

  /** "?tab=1&token=abc" holds the pairs tab=1 and token=abc. */
  lemma TabTokenPairs(s: string)
    requires s == "?tab=1&token=abc"
    ensures Parse(s) == [("tab", "1"), ("token", "abc")]
  {
    PlainNames();
    ParsePlainQuery(s, ("tab", "1"), ("token", "abc"));
  }

  /** The pair ?jwt=2 is written back with its '?' escaped. */
  lemma MarkedJwtWritten()
    ensures Serialise([("?jwt", "2")]) == "%3Fjwt=2"
  {
    assert EncodeChar('?') == "%3F";
    EncodePlain("jwt");
    EncodePlain("2");
    assert Encode("?jwt") == EncodeChar('?') + Encode("jwt");
  }

  /** A single kept pair is written back as `c` + name=value. */
  lemma OnePair(c: char, p: (string, string), part: string)
    requires Plain(p.0) && Plain(p.1)
    requires part == [c] + p.0 + "=" + p.1
    ensures Prefixed(c, Serialise([p])) == part
  {
    PlainPair(p);
  }

  /** Stripping two pairs of which exactly one is named by a key. */
  lemma StripTwo(ps: Pairs, keys: seq<string>, drop: nat)
    requires |ps| == 2 && drop < 2
    requires ps[drop].0 in keys && ps[1 - drop].0 !in keys
    ensures HitsAny(ps, keys)
    ensures Strip(ps, keys) == [ps[1 - drop]]
  {
    assert ps[1..][1..] == [];
    assert Strip(ps[1..][1..], keys) == [];
  }

  /** A query of two pairs of which exactly one is named by a key keeps the
      other one. */
  lemma SearchStripsOne(keys: seq<string>, loc: Loc, ps: Pairs, drop: nat, out: string)
    requires loc.search != "" && Parse(loc.search) == ps
    requires |ps| == 2 && drop < 2 && ps[drop].0 in keys && ps[1 - drop].0 !in keys
    requires Prefixed('?', Serialise([ps[1 - drop]])) == out
    ensures CleanSearch(keys, loc) == Some(loc.(search := out))
  {
    StripTwo(ps, keys, drop);
  }

  /** The same for a fragment. */
  lemma FragmentStripsOne(keys: seq<string>, loc: Loc, ps: Pairs, drop: nat, out: string)
    requires loc.hash != "" && Parse(FragmentContent(loc.hash)) == ps
    requires |ps| == 2 && drop < 2 && ps[drop].0 in keys && ps[1 - drop].0 !in keys
    requires Prefixed('#', Serialise([ps[1 - drop]])) == out
    ensures CleanFragment(keys, loc) == Some(loc.(hash := out))
  {
    StripTwo(ps, keys, drop);
  }

  /** A fragment of two plain pairs whose first name is a key keeps the
      second pair. */
  lemma FragmentDropsFirst(keys: seq<string>, loc: Loc, p: (string, string), q: (string, string), out: string)
    requires Plain(p.0) && Plain(p.1) && Plain(q.0) && Plain(q.1)
    requires loc.hash == "#" + (p.0 + "=" + p.1 + "&" + q.0 + "=" + q.1)
    requires p.0 in keys && q.0 !in keys
    requires out == "#" + q.0 + "=" + q.1
    ensures CleanFragment(keys, loc) == Some(loc.(hash := out))
  {
    ParsePlainTwo(FragmentContent(loc.hash), p, q);
    OnePair('#', q, out);
    FragmentStripsOne(keys, loc, [p, q], 0, out);
  }

  /** The same when the second name is a plain name marked with '?': the kept
      pair is written back with the '?' escaped. */
  lemma FragmentDropsMarked(keys: seq<string>, loc: Loc, p: (string, string), n: string, v: string, out: string)
    requires Plain(p.0) && Plain(p.1) && Plain(n) && Plain(v)
    requires loc.hash == "#" + ((p.0 + "=" + p.1) + "&" + ("?" + n + "=" + v))
    requires p.0 in keys && "?" + n !in keys
    requires out == "#" + ("%3F" + n + "=" + v)
    ensures CleanFragment(keys, loc) == Some(loc.(hash := out))
  {
    var q := ("?" + n, v);
    ParseMarkedTwo(FragmentContent(loc.hash), p, n, v);
    assert Encode(q.0) == "%3F" + n by {
      QuestionMarkEscaped();
      assert q.0[0] == '?' && q.0[1..] == n;
      assert Encode(q.0) == EncodeChar('?') + Encode(n);
      EncodePlain(n);
    }
    assert Serialise([q]) == "%3F" + n + "=" + v by {
      assert Serialise([q]) == SerialisePair(q);
      EncodePlain(v);
    }
    assert Prefixed('#', Serialise([q])) == out;
    FragmentStripsOne(keys, loc, [p, q], 0, out);
  }

  /** Names are compared exactly: "?Token=abc" is not touched by the default
      keys, although "token" is one of them. */
  lemma KeysAreCaseSensitive(loc: Loc)
    requires loc.search == "?Token=abc" && loc.hash == ""
    ensures Harden(DefaultConfig, loc, None, None) == Hardened(loc, [], [])
  {
    var ps := [("Token", "abc")];
    PlainNames();
    ParsePlainQueryOne(loc.search, ps[0]);
    DefaultKeyNames();
    assert !HitsAny(ps, DefaultKeys);
  }

  /** The query step on "?tab=1&token=abc" keeps "?tab=1". */
  lemma QueryExampleSearch(loc: Loc, cleaned: Loc)
    requires loc.search == "?tab=1&token=abc"
    requires cleaned == loc.(search := "?tab=1")
    ensures CleanSearch(DefaultKeys, loc) == Some(cleaned)
  {
    var ps := [("tab", "1"), ("token", "abc")];
    assert Prefixed('?', Serialise([ps[0]])) == cleaned.search by {
      PlainNames();
      OnePair('?', ("tab", "1"), cleaned.search);
    }
    assert Parse(loc.search) == ps by {
      TabTokenPairs(loc.search);
    }
    assert ps[1].0 in DefaultKeys && ps[0].0 !in DefaultKeys by {
      DefaultKeyNames();
    }
    SearchStripsOne(DefaultKeys, loc, ps, 1, cleaned.search);
  }

  /** The fragment "#section" holds the single name "section". */
  lemma SectionName(hash: string)
    requires hash == "#section"
    ensures Parse(FragmentContent(hash)) == [("section", "")]
  {
    var content := FragmentContent(hash);
    assert content == "section";
    PlainNames();
    ParsePlainName(content);
  }

  /** A fragment whose only pair is not named by a key is left alone. */
  lemma FragmentKeepsLone(keys: seq<string>, loc: Loc, p: (string, string))
    requires Parse(FragmentContent(loc.hash)) == [p] && p.0 !in keys
    ensures CleanFragment(keys, loc) == None
  {
    assert [p][0] == p;
  }

  /** The fragment step leaves "#section" alone. */
  lemma QueryExampleFragment(loc: Loc)
    requires loc.hash == "#section"
    ensures CleanFragment(DefaultKeys, loc) == None
  {
    SectionName(loc.hash);
    DefaultKeyNames();
    FragmentKeepsLone(DefaultKeys, loc, ("section", ""));
  }

  /** A token in the query is removed and the fragment is kept as it was:
      "/?tab=1&token=abc#section" becomes "/?tab=1#section". */
  lemma QueryExample(loc: Loc, cleaned: Loc)
    requires loc == Loc("/", "?tab=1&token=abc", "#section")
    requires cleaned == Loc("/", "?tab=1", "#section")
    ensures Harden(DefaultConfig, loc, None, None) == Hardened(cleaned, ["/?tab=1#section"], [])
  {
    assert RelativeUrl(cleaned) == "/?tab=1#section";
    DefaultEnablesAll();
    QueryExampleSearch(loc, cleaned);
    QueryExampleFragment(cleaned);
    HardenBySteps(DefaultConfig, loc, None, None, Some(cleaned), None);
  }

  /** The fragment step on "#token=xyz&view=grid" keeps "#view=grid". */
  lemma FragmentExampleStep(loc: Loc, cleaned: Loc)
    requires loc.hash == "#token=xyz&view=grid"
    requires cleaned == loc.(hash := "#view=grid")
    ensures CleanFragment(DefaultKeys, loc) == Some(cleaned)
  {
    PlainNames();
    DefaultKeyNames();
    FragmentDropsFirst(DefaultKeys, loc, ("token", "xyz"), ("view", "grid"), cleaned.hash);
  }

  /** A token in the fragment is removed: "/page#token=xyz&view=grid" becomes
      "/page#view=grid". */
  lemma FragmentExample(loc: Loc, cleaned: Loc)
    requires loc == Loc("/page", "", "#token=xyz&view=grid")
    requires cleaned == Loc("/page", "", "#view=grid")
    ensures Harden(DefaultConfig, loc, None, None) == Hardened(cleaned, ["/page#view=grid"], [])
  {
    assert RelativeUrl(cleaned) == "/page#view=grid";
    DefaultEnablesAll();
    assert CleanSearch(DefaultKeys, loc) == None;
    FragmentExampleStep(loc, cleaned);
    HardenBySteps(DefaultConfig, loc, None, None, None, Some(cleaned));
  }

  /** The fragment step on "#token=1&?jwt=2" keeps "#%3Fjwt=2". */
  lemma MarkedFirstPass(loc: Loc, once: Loc)
    requires loc.hash == "#token=1&?jwt=2"
    requires once == loc.(hash := "#%3Fjwt=2")
    ensures CleanFragment(DefaultKeys, loc) == Some(once)
  {
    PlainNames();
    DefaultKeyNames();
    assert "?" + "jwt" == "?jwt";
    FragmentDropsMarked(DefaultKeys, loc, ("token", "1"), "jwt", "2", once.hash);
  }

  /** "#%3Fjwt=2" reads as the pair ?jwt=2 again. */
  lemma MarkedReread(hash: string)
    requires hash == "#%3Fjwt=2"
    ensures Parse(FragmentContent(hash)) == [("?jwt", "2")]
  {
    MarkedJwtWritten();
    assert FragmentContent(hash) == Serialise([("?jwt", "2")]);
    ParseSerialised(FragmentContent(hash), [("?jwt", "2")]);
  }

  /** A kept fragment name that starts with '?' is written back escaped:
      "/#token=1&?jwt=2" becomes "/#%3Fjwt=2", which reads as the same pair
      ?jwt=2, so a second call leaves it alone. */
  lemma MarkedNameEscaped(loc: Loc, once: Loc)
    requires loc == Loc("/", "", "#token=1&?jwt=2")
    requires once == Loc("/", "", "#%3Fjwt=2")
    ensures Harden(DefaultConfig, loc, None, None) == Hardened(once, ["/#%3Fjwt=2"], [])
    ensures Parse(FragmentContent(once.hash)) == [("?jwt", "2")]
    ensures Harden(DefaultConfig, once, None, None) == Hardened(once, [], [])
  {
    assert RelativeUrl(once) == "/#%3Fjwt=2";
    DefaultEnablesAll();
    assert CleanSearch(DefaultKeys, loc) == None;
    assert CleanFragment(DefaultKeys, loc) == Some(once) by {
      MarkedFirstPass(loc, once);
    }
    assert Harden(DefaultConfig, loc, None, None) == Hardened(once, ["/#%3Fjwt=2"], []);
    MarkedReread(once.hash);
    HardenIsIdempotent(DefaultConfig, loc);
  }
}
