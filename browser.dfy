/** The part of the browser the location sanitizers touch: the current
    address and `history.replaceState`. How a URL string is resolved into an
    address is not modelled; the caller passes the address its rebuilt URL
    names along with the URL itself. */
module Browser {
  import opened Js

  /** `location.pathname`, `location.search` and `location.hash`. A non-empty
      search starts with '?', a non-empty hash with '#'. */
  datatype Loc = Loc(pathname: string, search: string, hash: string)

  /** `s ? c + s : ""`: the separator is written only before a non-empty part. */
  function Prefixed(c: char, s: string): (r: string)
    ensures r == "" <==> s == ""
    ensures s != "" ==> r[0] == c && r[1..] == s
  {
    if s == "" then "" else [c] + s
  }

  /** The relative URL pathname + search + hash. */
  function RelativeUrl(l: Loc): string {
    l.pathname + l.search + l.hash
  }

  /** `location.href` on a page whose origin is `origin`. */
  function Href(origin: string, l: Loc): string {
    origin + RelativeUrl(l)
  }

  class Page {
    const origin: string
    /** How the page answers its successive `history.replaceState` calls:
        the i-th call throws with `refusals[i]` when that is a message (a
        SecurityError, a rate limit); calls past the end succeed. */
    const refusals: seq<Option<string>>
    /** How many `history.replaceState` calls have been made. */
    var calls: nat
    var location: Loc
    /** Every URL passed to a `history.replaceState` that succeeded. */
    var replaced: seq<string>

    constructor(origin: string, refusals: seq<Option<string>>, location: Loc)
      ensures this.origin == origin && this.refusals == refusals
      ensures this.location == location && replaced == [] && calls == 0
    {
      this.origin := origin;
      this.refusals := refusals;
      this.location := location;
      replaced := [];
      calls := 0;
    }

    /** What the call numbered `i` throws, if anything. */
    function Refusal(i: nat): Option<string> {
      if i < |refusals| then refusals[i] else None
    }

    /** `history.replaceState(null, "", url)`, where `url` names `next`:
        either this call throws and nothing else changes, or the address
        becomes `next`. */
    method ReplaceState(url: string, next: Loc) returns (thrown: Option<string>)
      modifies this
      ensures thrown == Refusal(old(calls)) && calls == old(calls) + 1
      ensures thrown.Some? ==> location == old(location) && replaced == old(replaced)
      ensures thrown.None? ==> location == next && replaced == old(replaced) + [url]
    {
      thrown := Refusal(calls);
      calls := calls + 1;
      if thrown.None? {
        location := next;
        replaced := replaced + [url];
      }
    }
  }
}
