/** The stand-alone Express guard (token.js): it looks at every part of the
    request, collects the names of those holding a suspicious key, and
    answers 400 with that list when it is not empty. */
module TokenGuard {
  import opened Text
  import opened Js

  const SuspiciousKeys: seq<string> := ["token", "access_token", "id_token", "auth_token", "jwt"]

  /** The part names in the order the guard visits them. */
  const PartNames: seq<string> := ["query", "body", "headers", "cookies"]

  /** `SUSPICIOUS_KEYS.includes(key.toLowerCase())` */
  predicate IsSuspicious(k: string) {
    Lower(k) in SuspiciousKeys
  }

  /** Some entry's key is suspicious in some letter case. */
  predicate AnySuspicious(fs: Fields) {
    exists i :: 0 <= i < |fs| && IsSuspicious(fs[i].0)
  }

  /** The `some` over the keys, one at a time. */
  function AnyLowered(fs: Fields): (r: bool)
    ensures r <==> AnySuspicious(fs)
  {
    if fs == [] then false
    else if IsSuspicious(fs[0].0) then true
    else
      var r := AnyLowered(fs[1..]);
      assert forall i :: 1 <= i < |fs| ==> fs[i] == fs[1..][i - 1];
      r
  }

  /** `hasSuspiciousKey(obj = {})`: `undefined` takes the default `{}`;
      `null` makes Object.keys throw (None); any other value is tested on
      its own keys. */
  function HasSuspiciousKey(v: Value): (r: Option<bool>)
    ensures r.None? <==> v.Null?
    ensures r.Some? ==> (r.value <==> AnySuspicious(OwnEntries(v)))
  {
    if v.Null? then None else Some(AnyLowered(OwnEntries(v)))
  }

  /** The headers copied under lower-cased names (`req.headers || {}`: a
      falsy value has no entries). */
  function LoweredHeaders(r: ReqParts): Value {
    Obj(false, LowerKeys(OwnEntries(r.headers)))
  }

  /** The cookies are looked at only when truthy. */
  predicate CookiesHit(r: ReqParts) {
    Truthy(r.cookies) && HasSuspiciousKey(r.cookies) == Some(true)
  }

  /** What one check pushes onto `issues`. */
  function Flag(hit: bool, name: string): seq<string> {
    if hit then [name] else []
  }

  /** The list `issues` the guard builds, or None when a `hasSuspiciousKey`
      call throws (a null query or body). */
  function Issues(r: ReqParts): Option<seq<string>> {
    var q := HasSuspiciousKey(r.query);
    var b := HasSuspiciousKey(r.body);
    if q.None? || b.None? then None
    else
      Some(Flag(q.value, "query") + Flag(b.value, "body")
           + Flag(HasSuspiciousKey(LoweredHeaders(r)) == Some(true), "headers")
           + Flag(CookiesHit(r), "cookies"))
  }

  const Code := "TOKEN_IN_URL_OR_REQUEST"
  const Message := "Les jetons ne doivent pas transiter par l’URL ou la requête."

  datatype GuardOutcome =
    | Throws
    | Rejected(status: int, code: string, message: string, details: seq<string>)
    | Next

  /** `tokenGuard`'s outcome: a thrown TypeError, a 400 listing the parts,
      or `next()`. */
  function Guard(r: ReqParts): GuardOutcome {
    match Issues(r)
    case None => Throws
    case Some(issues) =>
      if |issues| > 0 then Rejected(400, Code, Message, issues) else Next
  }

  /** `tokenGuard(req, res, next)` as written (the console warning is not
      modelled). */
  method Guarded(r: ReqParts) returns (o: GuardOutcome)
    ensures o == Guard(r)
  {
    var issues: seq<string> := [];
    var q := HasSuspiciousKey(r.query);
    if q.None? {
      return Throws;
    }
    if q.value {
      issues := issues + ["query"];
    }
    assert issues == Flag(q.value, "query");
    var b := HasSuspiciousKey(r.body);
    if b.None? {
      return Throws;
    }
    if b.value {
      issues := issues + ["body"];
    }
    assert issues == Flag(q.value, "query") + Flag(b.value, "body");
    var lowered := LowerKeyed(OwnEntries(r.headers));
    var h := HasSuspiciousKey(Obj(false, lowered)) == Some(true);
    if h {
      issues := issues + ["headers"];
    }
    assert issues == Flag(q.value, "query") + Flag(b.value, "body") + Flag(h, "headers");
    var c := Truthy(r.cookies) && HasSuspiciousKey(r.cookies) == Some(true);
    if c {
      issues := issues + ["cookies"];
    }
    assert issues == Flag(q.value, "query") + Flag(b.value, "body") + Flag(h, "headers") + Flag(c, "cookies");
    assert Issues(r) == Some(issues);
    if |issues| > 0 {
      o := Rejected(400, Code, Message, issues);
    } else {
      o := Next;
    }
  }

  /** A part holds a suspicious key in some letter case. */
  predicate PartHit(v: Value) {
    AnySuspicious(OwnEntries(v))
  }

  /** The lowered copy of the headers is suspicious exactly when an original
      header name is, in any letter case. */
  lemma HeadersHitIffOriginal(r: ReqParts)
    ensures HasSuspiciousKey(LoweredHeaders(r)) == Some(true) <==> PartHit(r.headers)
  {
    var fs := OwnEntries(r.headers);
    var low := LowerKeys(fs);
    LowerKeysShape(fs);
    KeysOfAt(low);
    if PartHit(Obj(false, low)) {
      var i :| 0 <= i < |low| && IsSuspicious(low[i].0);
      assert low[i].0 in KeysOf(low);
      var j :| 0 <= j < |fs| && Lower(fs[j].0) == low[i].0;
      LowerIsLowerCase(fs[j].0);
      assert IsSuspicious(fs[j].0);
    }
    if PartHit(r.headers) {
      var j :| 0 <= j < |fs| && IsSuspicious(fs[j].0);
      var k := Lower(fs[j].0);
      assert HasLoweredKey(fs, k);
      assert k in KeysOf(low);
      var i :| 0 <= i < |low| && KeysOf(low)[i] == k;
      LowerIsLowerCase(fs[j].0);
      assert IsSuspicious(low[i].0);
    }
  }

  /** The guard throws exactly when the query or the body is null. Otherwise
      it does not stop at the first hit: the details name every part that
      holds a suspicious key (cookies only when truthy), each once and in
      visiting order, and the request goes on exactly when none does. */
  lemma GuardMeaning(r: ReqParts)
    ensures Guard(r).Throws? <==> r.query.Null? || r.body.Null?
    ensures !Guard(r).Throws? ==>
              (Guard(r).Next? <==> !PartHit(r.query) && !PartHit(r.body) && !PartHit(r.headers)
                                    && !(Truthy(r.cookies) && PartHit(r.cookies)))
    ensures Guard(r).Rejected? ==>
              && Guard(r).status == 400
              && IsSubsequence(Guard(r).details, PartNames)
              && ("query" in Guard(r).details <==> PartHit(r.query))
              && ("body" in Guard(r).details <==> PartHit(r.body))
              && ("headers" in Guard(r).details <==> PartHit(r.headers))
              && ("cookies" in Guard(r).details <==> Truthy(r.cookies) && PartHit(r.cookies))
  {
    HeadersHitIffOriginal(r);
    if Issues(r).Some? {
      var q, b, h := PartHit(r.query), PartHit(r.body), PartHit(r.headers);
      var c := Truthy(r.cookies) && PartHit(r.cookies);
      assert Issues(r).value == Flag(q, "query") + Flag(b, "body") + Flag(h, "headers") + Flag(c, "cookies");
      FlagsListParts(q, b, h, c);
    }
  }

  /** The four flags give a list of distinct part names in visiting order,
      holding each name exactly when its flag is set. */
  lemma FlagsListParts(q: bool, b: bool, h: bool, c: bool)
    ensures var d := Flag(q, "query") + Flag(b, "body") + Flag(h, "headers") + Flag(c, "cookies");
            && IsSubsequence(d, PartNames)
            && ("query" in d <==> q) && ("body" in d <==> b)
            && ("headers" in d <==> h) && ("cookies" in d <==> c)
            && (d == [] <==> !q && !b && !h && !c)
  {
    var fq, fb, fh, fc := Flag(q, "query"), Flag(b, "body"), Flag(h, "headers"), Flag(c, "cookies");
    var tail3 := PartNames[1..];
    var tail2 := tail3[1..];
    var tail1 := tail2[1..];
    assert tail1 == ["cookies"] && tail1[1..] == [];
    FlagThen(c, "cookies", [], tail1);
    assert fc + [] == fc;
    FlagThen(h, "headers", fc, tail2);
    FlagThen(b, "body", fh + fc, tail3);
    AppendAssoc(fb, fh, fc);
    FlagThen(q, "query", fb + fh + fc, PartNames);
    AppendAssoc(fq, fb + fh, fc);
    AppendAssoc(fq, fb, fh);
  }

  /** Putting one flag's name before a subsequence of the later names gives
      a subsequence of all the names, which holds the name exactly when the
      flag is set. */
  lemma FlagThen(hit: bool, name: string, rest: seq<string>, names: seq<string>)
    requires names != [] && names[0] == name && name !in rest && IsSubsequence(rest, names[1..])
    ensures IsSubsequence(Flag(hit, name) + rest, names)
    ensures forall x :: x in Flag(hit, name) + rest <==> (hit && x == name) || x in rest
    ensures Flag(hit, name) + rest == [] <==> !hit && rest == []
  {
    if hit {
      assert (Flag(hit, name) + rest)[1..] == rest;
    } else {
      assert Flag(hit, name) + rest == rest;
      SkipHeadKeepsSubsequence(rest, names);
    }
  }

  /** A suspicious query and suspicious cookies are both reported. */
  lemma ReportsEveryPart(r: ReqParts)
    requires r.query == Obj(false, [("token", Str("a"))])
    requires r.body == Undefined && r.headers == Undefined
    requires r.cookies == Obj(false, [("JWT", Str("b"))])
    ensures Guard(r) == Rejected(400, Code, Message, ["query", "cookies"])
  {
    SuspiciousLiterals("token", "JWT");
    assert AnySuspicious(OwnEntries(r.query)) by {
      assert OwnEntries(r.query)[0].0 == "token";
    }
    assert AnySuspicious(OwnEntries(r.cookies)) by {
      assert OwnEntries(r.cookies)[0].0 == "JWT";
    }
    assert LowerKeys(OwnEntries(r.headers)) == [];
    assert Issues(r) == Some(Flag(true, "query") + Flag(false, "body") + Flag(false, "headers") + Flag(true, "cookies"));
  }

  /** "token" and "JWT" are both suspicious names. */
  lemma SuspiciousLiterals(a: string, b: string)
    requires a == "token" && b == "JWT"
    ensures IsSuspicious(a) && IsSuspicious(b)
  {
    LowerAt(a);
    LowerAt(b);
    assert Lower(a) == "token";
    assert Lower(b) == "jwt";
  }
}
