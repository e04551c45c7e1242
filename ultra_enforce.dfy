/** What `ultraShieldMiddleware` (ultra-shield.js, section 3) decides for one
    request, as a function of the configuration and the request: which parts
    are scanned and in which order, the response, the rewritten request and
    the events logged. UltraShield.Firewall.Middleware performs it step by
    step on a mutable request. */
module UltraEnforce {
  import opened Text
  import opened Js
  import opened UltraConfig
  import opened UltraScan

  /** The four parts of a request, each guarded by the flag of the same name. */
  datatype Part = Query | Headers | Body | Cookies

  /** The context name: the enabledContexts flag and the event context. */
  function Name(p: Part): string {
    match p
    case Query => "query"
    case Headers => "headers"
    case Body => "body"
    case Cookies => "cookies"
  }

  /** The `error` field of the 400 response for a part. */
  function Code(p: Part): string {
    match p
    case Query => "TOKEN_IN_QUERY"
    case Headers => "TOKEN_IN_HEADERS"
    case Body => "TOKEN_IN_BODY"
    case Cookies => "TOKEN_IN_COOKIES"
  }

  /** The `message` field of the 400 response for a part. */
  function Message(p: Part): string {
    match p
    case Query => "Les jetons sont interdits dans les paramètres d’URL."
    case Headers => "En-têtes non conformes (clé sensible détectée)."
    case Body => "Corps de requête non conforme (clé sensible)."
    case Cookies => "Cookies non conformes (clé sensible)."
  }

  /** The order in which the middleware visits the parts. */
  const Order: seq<Part> := [Query, Headers, Body, Cookies]

  /** Either `next()` is called, or a response is sent and `next` is not. */
  datatype Verdict = Next | Respond(status: int, error: string, message: string)

  /** `req.query`, `req.headers`, `req.body` or `req.cookies`. */
  function Get(r: ReqParts, p: Part): Value {
    match p
    case Query => r.query
    case Headers => r.headers
    case Body => r.body
    case Cookies => r.cookies
  }

  /** The value handed to `scanObject` for a part, or None when the part is
      skipped: its flag is off, or (for cookies) `req.cookies` is falsy.
      Headers are first copied into a fresh object under lower-cased names;
      a falsy body is replaced by `{}`. */
  function Scanned(cfg: Config, p: Part, r: ReqParts): Option<Value> {
    if !Enabled(cfg, Name(p)) then None
    else match p
      case Query => Some(r.query)
      case Headers => Some(Obj(false, LowerKeys(OwnEntries(r.headers))))
      case Body => Some(if Truthy(r.body) then r.body else Obj(false, []))
      case Cookies => if Truthy(r.cookies) then Some(r.cookies) else None
  }

  /** The scan of a part reports an incident. */
  predicate Hit(cfg: Config, p: Part, r: ReqParts) {
    Scanned(cfg, p, r).Some? && Scan(cfg, Scanned(cfg, p, r).value).incident
  }

  /** The events the scan of a part logs (none when the part is skipped). */
  function PartEvents(cfg: Config, p: Part, r: ReqParts, meta: Meta): seq<Event> {
    if Scanned(cfg, p, r).Some? then ScanEvents(cfg, Scanned(cfg, p, r).value, Name(p), meta) else []
  }

  /** `req.query = ...`, `req.body = ...`, `req.cookies = ...`; the headers
      are never written back. */
  function Rewrite(r: ReqParts, p: Part, v: Value): ReqParts {
    match p
    case Query => r.(query := v)
    case Headers => r
    case Body => r.(body := v)
    case Cookies => r.(cookies := v)
  }

  datatype Enforced = Enforced(verdict: Verdict, req: ReqParts, events: seq<Event>)

  /** What the block for one part does besides logging: it answers, or the
      walk goes on with the request as the block leaves it. */
  datatype Blocked = Answer(verdict: Verdict) | Continue(req: ReqParts)

  /** A hit under "reject" answers 400 with the part's code and message; a
      hit under "sanitize" replaces the part by its sanitized copy; otherwise
      the request goes on as it was. */
  function Block(cfg: Config, p: Part, r: ReqParts): Blocked {
    if Hit(cfg, p, r) && cfg.mode == Reject then Answer(Respond(400, Code(p), Message(p)))
    else if Hit(cfg, p, r) && cfg.mode == Sanitize then Continue(Rewrite(r, p, Scan(cfg, Scanned(cfg, p, r).value).sanitized))
    else Continue(r)
  }

  /** The middleware's walk over a list of parts: the block of each part in
      turn, until one answers. */
  function Walk(cfg: Config, ps: seq<Part>, r: ReqParts, meta: Meta): Enforced {
    if ps == [] then Enforced(Next, r, [])
    else
      var ev := PartEvents(cfg, ps[0], r, meta);
      match Block(cfg, ps[0], r)
      case Answer(v) => Enforced(v, r, ev)
      case Continue(r') =>
        var rest := Walk(cfg, ps[1..], r', meta);
        Enforced(rest.verdict, rest.req, ev + rest.events)
  }

  /** One call of the middleware. */
  function Enforce(cfg: Config, r: ReqParts, meta: Meta): Enforced {
    Walk(cfg, Order, r, meta)
  }

  /** The events of scanning every part of `ps` against the same request. */
  function EventsOf(cfg: Config, ps: seq<Part>, r: ReqParts, meta: Meta): seq<Event> {
    if ps == [] then [] else PartEvents(cfg, ps[0], r, meta) + EventsOf(cfg, ps[1..], r, meta)
  }

  /** Part `ps[i]` is the first of `ps` whose scan reports an incident. */
  predicate FirstHit(cfg: Config, ps: seq<Part>, r: ReqParts, i: int) {
    0 <= i < |ps| && Hit(cfg, ps[i], r) && forall j :: 0 <= j < i ==> !Hit(cfg, ps[j], r)
  }

  predicate DistinctParts(ps: seq<Part>) {
    forall i, j :: 0 <= i < j < |ps| ==> ps[i] != ps[j]
  }

  /** What the walk leaves in part `q` when it does not reject. */
  function Outcome(cfg: Config, ps: seq<Part>, r: ReqParts, q: Part): Value {
    if q in ps && q != Headers && cfg.mode == Sanitize && Hit(cfg, q, r)
    then Scan(cfg, Scanned(cfg, q, r).value).sanitized
    else Get(r, q)
  }

  /** Rewriting one part changes neither what is scanned for another part
      nor the other parts themselves. */
  lemma RewriteKeepsOthers(cfg: Config, r: ReqParts, p: Part, v: Value, q: Part)
    requires p != q
    ensures Scanned(cfg, q, Rewrite(r, p, v)) == Scanned(cfg, q, r)
    ensures Get(Rewrite(r, p, v), q) == Get(r, q)
  {
  }

  lemma {:induction false} EventsOfRewrite(cfg: Config, ps: seq<Part>, r: ReqParts, p: Part, v: Value, meta: Meta)
    requires p !in ps
    ensures EventsOf(cfg, ps, Rewrite(r, p, v), meta) == EventsOf(cfg, ps, r, meta)
  {
    if ps != [] {
      RewriteKeepsOthers(cfg, r, p, v, ps[0]);
      EventsOfRewrite(cfg, ps[1..], r, p, v, meta);
    }
  }

  /** Under "reject", a first part that does not hit contributes its events
      and the walk goes on with the same request. */
  lemma WalkRejectStep(cfg: Config, ps: seq<Part>, r: ReqParts, meta: Meta)
    requires cfg.mode == Reject && ps != [] && !Hit(cfg, ps[0], r)
    ensures var rest := Walk(cfg, ps[1..], r, meta);
            Walk(cfg, ps, r, meta) == Enforced(rest.verdict, rest.req, PartEvents(cfg, ps[0], r, meta) + rest.events)
  {
  }

  /** Under "reject", a first part that hits ends the walk with its answer
      and its events. */
  lemma WalkRejectHit(cfg: Config, ps: seq<Part>, r: ReqParts, meta: Meta)
    requires cfg.mode == Reject && ps != [] && Hit(cfg, ps[0], r)
    ensures Walk(cfg, ps, r, meta) == Enforced(Respond(400, Code(ps[0]), Message(ps[0])), r, PartEvents(cfg, ps[0], r, meta))
  {
  }

  /** Under "reject" the request is never modified, and when no part hits
      the walk calls `next` after logging the events of every part. */
  lemma {:induction false} WalkRejectKeeps(cfg: Config, ps: seq<Part>, r: ReqParts, meta: Meta)
    requires cfg.mode == Reject
    ensures Walk(cfg, ps, r, meta).req == r
    ensures (forall i :: 0 <= i < |ps| ==> !Hit(cfg, ps[i], r)) ==>
              Walk(cfg, ps, r, meta).verdict == Next && Walk(cfg, ps, r, meta).events == EventsOf(cfg, ps, r, meta)
  {
    if ps != [] {
      WalkRejectKeeps(cfg, ps[1..], r, meta);
      if !Hit(cfg, ps[0], r) {
        WalkRejectStep(cfg, ps, r, meta);
        if forall i :: 0 <= i < |ps| ==> !Hit(cfg, ps[i], r) {
          assert forall i :: 0 <= i < |ps[1..]| ==> ps[1..][i] == ps[i + 1];
        }
      }
    }
  }

  /** Under "reject", when `ps[i]` is the first part that hits, the walk
      answers with its code after logging the events of `ps[..i + 1]`. */
  lemma {:induction false} WalkRejectAt(cfg: Config, ps: seq<Part>, r: ReqParts, meta: Meta, i: int)
    requires cfg.mode == Reject && FirstHit(cfg, ps, r, i)
    ensures Walk(cfg, ps, r, meta).verdict == Respond(400, Code(ps[i]), Message(ps[i]))
    ensures Walk(cfg, ps, r, meta).events == EventsOf(cfg, ps[..i + 1], r, meta)
  {
    if i == 0 {
      WalkRejectHit(cfg, ps, r, meta);
      assert ps[..1][1..] == [];
    } else {
      assert FirstHit(cfg, ps[1..], r, i - 1);
      WalkRejectAt(cfg, ps[1..], r, meta, i - 1);
      WalkRejectStep(cfg, ps, r, meta);
      assert ps[..i + 1][1..] == ps[1..][..i];
    }
  }

  /** Under "reject" the request is never modified; the walk answers with the
      code of the first part that hits, after logging the events of the parts
      up to and including it, and calls `next` when no part hits. */
  lemma WalkUnderReject(cfg: Config, ps: seq<Part>, r: ReqParts, meta: Meta)
    requires cfg.mode == Reject
    ensures Walk(cfg, ps, r, meta).req == r
    ensures (forall i :: 0 <= i < |ps| ==> !Hit(cfg, ps[i], r)) ==>
              Walk(cfg, ps, r, meta).verdict == Next && Walk(cfg, ps, r, meta).events == EventsOf(cfg, ps, r, meta)
    ensures forall i :: FirstHit(cfg, ps, r, i) ==>
              Walk(cfg, ps, r, meta).verdict == Respond(400, Code(ps[i]), Message(ps[i]))
              && Walk(cfg, ps, r, meta).events == EventsOf(cfg, ps[..i + 1], r, meta)
  {
    WalkRejectKeeps(cfg, ps, r, meta);
    forall i | FirstHit(cfg, ps, r, i)
      ensures Walk(cfg, ps, r, meta).verdict == Respond(400, Code(ps[i]), Message(ps[i]))
              && Walk(cfg, ps, r, meta).events == EventsOf(cfg, ps[..i + 1], r, meta)
    {
      WalkRejectAt(cfg, ps, r, meta, i);
    }
  }

  /** Under any mode but "reject" the walk always ends in `next`, logs the
      events of every part in order, and leaves each part as it was, except
      that under "sanitize" a part other than the headers whose scan hit is
      replaced by its sanitized copy. */
  lemma {:induction false} WalkUnlessReject(cfg: Config, ps: seq<Part>, r: ReqParts, meta: Meta)
    requires cfg.mode != Reject
    requires DistinctParts(ps)
    ensures Walk(cfg, ps, r, meta).verdict == Next
    ensures Walk(cfg, ps, r, meta).events == EventsOf(cfg, ps, r, meta)
    ensures forall q :: Get(Walk(cfg, ps, r, meta).req, q) == Outcome(cfg, ps, r, q)
  {
    if ps != [] {
      var p := ps[0];
      var r' := if Hit(cfg, p, r) && cfg.mode == Sanitize
                then Rewrite(r, p, Scan(cfg, Scanned(cfg, p, r).value).sanitized)
                else r;
      assert p !in ps[1..];
      assert DistinctParts(ps[1..]) by {
        forall i, j | 0 <= i < j < |ps[1..]|
          ensures ps[1..][i] != ps[1..][j]
        {
          assert ps[i + 1] != ps[j + 1];
        }
      }
      WalkUnlessReject(cfg, ps[1..], r', meta);
      if r' != r {
        EventsOfRewrite(cfg, ps[1..], r, p, Scan(cfg, Scanned(cfg, p, r).value).sanitized, meta);
      }
      forall q
        ensures Get(Walk(cfg, ps, r, meta).req, q) == Outcome(cfg, ps, r, q)
      {
        if q != p && r' != r {
          RewriteKeepsOthers(cfg, r, p, Scan(cfg, Scanned(cfg, p, r).value).sanitized, q);
        }
      }
    }
  }

  /** Where each part stands in Order. */
  function Index(p: Part): (i: nat)
    ensures i < |Order| && Order[i] == p
  {
    match p
    case Query => 0
    case Headers => 1
    case Body => 2
    case Cookies => 3
  }

  /** The events of scanning four parts are those of each part in turn. */
  lemma EventsOfFour(cfg: Config, ps: seq<Part>, r: ReqParts, meta: Meta)
    requires |ps| == 4
    ensures EventsOf(cfg, ps, r, meta) ==
              PartEvents(cfg, ps[0], r, meta) + PartEvents(cfg, ps[1], r, meta)
              + PartEvents(cfg, ps[2], r, meta) + PartEvents(cfg, ps[3], r, meta)
  {
    var o1 := ps[1..];
    var o2 := o1[1..];
    var o3 := o2[1..];
    assert o3[1..] == [];
    assert EventsOf(cfg, o3, r, meta) == PartEvents(cfg, ps[3], r, meta);
    assert EventsOf(cfg, o2, r, meta) == PartEvents(cfg, ps[2], r, meta) + EventsOf(cfg, o3, r, meta);
    assert EventsOf(cfg, o1, r, meta) == PartEvents(cfg, ps[1], r, meta) + EventsOf(cfg, o2, r, meta);
  }

  lemma EventsOfOrder(cfg: Config, r: ReqParts, meta: Meta)
    ensures EventsOf(cfg, Order, r, meta) ==
              PartEvents(cfg, Query, r, meta) + PartEvents(cfg, Headers, r, meta)
              + PartEvents(cfg, Body, r, meta) + PartEvents(cfg, Cookies, r, meta)
  {
    EventsOfFour(cfg, Order, r, meta);
  }

  /** Under "reject" the middleware never modifies the request, and it calls
      `next` exactly when no part's scan hits. */
  lemma RejectPassesOnlyClean(cfg: Config, r: ReqParts, meta: Meta)
    requires cfg.mode == Reject
    ensures Enforce(cfg, r, meta).req == r
    ensures Enforce(cfg, r, meta).verdict == Next <==> forall p :: !Hit(cfg, p, r)
  {
    WalkUnderReject(cfg, Order, r, meta);
    if forall i :: 0 <= i < |Order| ==> !Hit(cfg, Order[i], r) {
      forall p
        ensures !Hit(cfg, p, r)
      {
        var i := Index(p);
      }
    } else {
      var i := SomeHit(cfg, r);
      assert FirstHit(cfg, Order, r, i);
    }
  }

  /** The position in Order of the first part that hits, when one does. */
  function SomeHit(cfg: Config, r: ReqParts): (i: nat)
    requires exists i :: 0 <= i < |Order| && Hit(cfg, Order[i], r)
    ensures FirstHit(cfg, Order, r, i)
  {
    if Hit(cfg, Query, r) then 0 else if Hit(cfg, Headers, r) then 1
    else if Hit(cfg, Body, r) then 2 else 3
  }

  /** Under "reject" the middleware visits query, headers, body and cookies in
      that order: the first part whose scan hits gets the 400 response with
      its own code and message, after the events of the parts up to it are
      logged, and `next` is not called. */
  lemma RejectStopsAtFirstHit(cfg: Config, r: ReqParts, meta: Meta)
    requires cfg.mode == Reject
    ensures forall i :: FirstHit(cfg, Order, r, i) ==>
              Enforce(cfg, r, meta).verdict == Respond(400, Code(Order[i]), Message(Order[i]))
              && Enforce(cfg, r, meta).events == EventsOf(cfg, Order[..i + 1], r, meta)
  {
    WalkUnderReject(cfg, Order, r, meta);
  }

  /** Under "sanitize", "monitor" or any other mode `next` is always called,
      every enabled part is scanned and logged in order, and the headers are
      never rewritten; under "sanitize" the query, body and cookies are
      replaced by their sanitized copies exactly when their scan hit. */
  lemma PassUnlessReject(cfg: Config, r: ReqParts, meta: Meta)
    requires cfg.mode != Reject
    ensures Enforce(cfg, r, meta).verdict == Next
    ensures Enforce(cfg, r, meta).events ==
              PartEvents(cfg, Query, r, meta) + PartEvents(cfg, Headers, r, meta)
              + PartEvents(cfg, Body, r, meta) + PartEvents(cfg, Cookies, r, meta)
    ensures Enforce(cfg, r, meta).req.headers == r.headers
    ensures forall p :: p != Headers ==>
              Get(Enforce(cfg, r, meta).req, p) ==
                if cfg.mode == Sanitize && Hit(cfg, p, r) then Scan(cfg, Scanned(cfg, p, r).value).sanitized else Get(r, p)
  {
    WalkUnlessReject(cfg, Order, r, meta);
    EventsOfOrder(cfg, r, meta);
    forall p
      ensures p in Order
    {
      var i := Index(p);
    }
    assert Get(Enforce(cfg, r, meta).req, Headers) == r.headers;
  }

  /** A name is forbidden exactly when its lower-cased form is. */
  lemma ForbiddenIgnoresLowering(keys: seq<string>, k: string)
    ensures IsForbidden(keys, Lower(k)) == IsForbidden(keys, k)
  {
    LowerIsLowerCase(k);
  }

  /** Copying the names lower-cased keeps exactly the same detections. */
  lemma LoweringKeepsForbidden(keys: seq<string>, hs: Fields)
    ensures HasForbiddenKey(keys, LowerKeys(hs)) <==> HasForbiddenKey(keys, hs)
  {
    var lowered := LowerKeys(hs);
    LowerKeysShape(hs);
    KeysOfAt(lowered);
    if HasForbiddenKey(keys, lowered) {
      var i :| 0 <= i < |lowered| && IsForbidden(keys, lowered[i].0);
      var k := lowered[i].0;
      assert k == KeysOf(lowered)[i];
      assert HasLoweredKey(hs, k);
      var j :| 0 <= j < |hs| && Lower(hs[j].0) == k;
      ForbiddenIgnoresLowering(keys, hs[j].0);
    }
    if HasForbiddenKey(keys, hs) {
      var j :| 0 <= j < |hs| && IsForbidden(keys, hs[j].0);
      var k := Lower(hs[j].0);
      assert HasLoweredKey(hs, k);
      assert k in KeysOf(lowered);
      var i :| 0 <= i < |lowered| && KeysOf(lowered)[i] == k;
      ForbiddenIgnoresLowering(keys, hs[j].0);
      assert IsForbidden(keys, lowered[i].0);
    }
  }

  /** Headers are compared after lower-casing their names, which matches what
      the scanner would find on the original names: the header part hits
      exactly when some original header name is a forbidden key. */
  lemma HeaderHitIffForbiddenName(cfg: Config, r: ReqParts)
    ensures Hit(cfg, Headers, r) <==>
              Enabled(cfg, "headers") && HasForbiddenKey(cfg.forbiddenKeys, OwnEntries(r.headers))
  {
    LoweringKeepsForbidden(cfg.forbiddenKeys, OwnEntries(r.headers));
    AnyForbiddenMeaning(cfg.forbiddenKeys, LowerKeys(OwnEntries(r.headers)));
  }

  /** A falsy body is scanned as `{}` and cookies that are absent are not
      scanned at all: neither can hit or log anything. */
  lemma AbsentBodyAndCookiesPass(cfg: Config, r: ReqParts, meta: Meta)
    ensures !Truthy(r.body) ==> !Hit(cfg, Body, r) && PartEvents(cfg, Body, r, meta) == []
    ensures !Truthy(r.cookies) ==> !Hit(cfg, Cookies, r) && PartEvents(cfg, Cookies, r, meta) == []
  {
    if !Truthy(r.body) && Enabled(cfg, "body") {
      assert Scanned(cfg, Body, r) == Some(Obj(false, []));
    }
  }
}
