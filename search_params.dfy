/** URLSearchParams as the location sanitizers use it: parsing a query or
    fragment string into name/value pairs, `has`, `delete` and `toString`,
    with the application/x-www-form-urlencoded escapes: '+' reads as a space
    and `%XX` as the character with that code; writing turns a space into
    '+' and every other ASCII character outside `*-._`, letters and digits
    into `%XX`. Characters beyond ASCII are written as they are (the UTF-8
    step of the encoder and decoder is not modelled). */
module SearchParams {

  type Pairs = seq<(string, string)>

  /** Position of the first `c` in `s`, or |s| when there is none. */
  function IndexOf(s: string, c: char): (i: nat)
    ensures i <= |s|
    ensures i < |s| ==> s[i] == c
    ensures c !in s[..i]
  {
    if s == [] then 0 else if s[0] == c then 0 else 1 + IndexOf(s[1..], c)
  }

  /** The segments put back together with `c` between them (`Array.prototype.join`). */
  function Join(parts: seq<string>, c: char): string {
    if parts == [] then ""
    else if |parts| == 1 then parts[0]
    else parts[0] + [c] + Join(parts[1..], c)
  }

  /** String.prototype.split with a one-character separator: the segments
      hold no separator and joining them with it gives back the string. */
  function Split(s: string, c: char): (parts: seq<string>)
    ensures |parts| >= 1
    ensures forall i :: 0 <= i < |parts| ==> c !in parts[i]
    ensures Join(parts, c) == s
    decreases |s|
  {
    var i := IndexOf(s, c);
    if i == |s| then [s]
    else
      var rest := Split(s[i + 1..], c);
      assert s == s[..i] + [c] + s[i + 1..];
      [s[..i]] + rest
  }

  /** One `name=value` segment cut at its first '='; without '=' the whole
      segment is the name and the value is empty. */
  function SplitPair(seg: string): (p: (string, string))
    ensures '=' !in p.0
    ensures '=' in seg ==> seg == p.0 + "=" + p.1
    ensures '=' !in seg ==> p == (seg, "")
  {
    var i := IndexOf(seg, '=');
    if i == |seg| then (seg, "") else (seg[..i], seg[i + 1..])
  }

  predicate IsHex(c: char) {
    '0' <= c <= '9' || 'A' <= c <= 'F' || 'a' <= c <= 'f'
  }

  function HexValue(c: char): (v: nat)
    requires IsHex(c)
    ensures v < 16
  {
    if '0' <= c <= '9' then c as int - '0' as int
    else if 'A' <= c <= 'F' then c as int - 'A' as int + 10
    else c as int - 'a' as int + 10
  }

  /** The upper-case hex digit the encoder writes for `d`. */
  function HexDigit(d: nat): (c: char)
    requires d < 16
    ensures IsHex(c) && HexValue(c) == d
  {
    if d < 10 then ('0' as int + d) as char else ('A' as int + d - 10) as char
  }

  /** The percent-decoding of a name or value: '+' is a space, `%` with two
      hex digits is the character with that code, anything else stays. */
  function Decode(s: string): string
    decreases |s|
  {
    if s == [] then []
    else if s[0] == '+' then [' '] + Decode(s[1..])
    else if s[0] == '%' && |s| >= 3 && IsHex(s[1]) && IsHex(s[2]) then
      [(HexValue(s[1]) * 16 + HexValue(s[2])) as char] + Decode(s[3..])
    else [s[0]] + Decode(s[1..])
  }

  /** The characters the urlencoded serialiser writes as they are. */
  predicate IsUnreserved(c: char) {
    'a' <= c <= 'z' || 'A' <= c <= 'Z' || '0' <= c <= '9' || c == '*' || c == '-' || c == '.' || c == '_'
  }

  /** How the serialiser writes one character. */
  function EncodeChar(c: char): string {
    if c == ' ' then "+"
    else if IsUnreserved(c) || c as int >= 128 then [c]
    else ['%', HexDigit(c as int / 16), HexDigit(c as int % 16)]
  }

  /** A '?' is written as "%3F". */
  lemma QuestionMarkEscaped()
    ensures EncodeChar('?') == "%3F"
  {
    assert '?' as int == 63 && !IsUnreserved('?');
    assert HexDigit(3) == '3' && HexDigit(15) == 'F';
  }

  function Encode(s: string): string {
    if s == [] then [] else EncodeChar(s[0]) + Encode(s[1..])
  }

  /** Decoding one written character, followed by anything, gives back that
      character first. */
  lemma DecodeEncodeChar(c: char, rest: string)
    ensures Decode(EncodeChar(c) + rest) == [c] + Decode(rest)
  {
    var s := EncodeChar(c) + rest;
    if c == ' ' {
      assert s[1..] == rest;
    } else if IsUnreserved(c) || c as int >= 128 {
      assert s[1..] == rest;
    } else {
      var n := c as int;
      assert s[3..] == rest;
      assert HexValue(s[1]) * 16 + HexValue(s[2]) == n;
    }
  }

  /** What the encoder writes holds no '&', '=' or '?', and decodes back to
      the original. */
  lemma {:induction false} EncodeMeaning(s: string)
    ensures '&' !in Encode(s) && '=' !in Encode(s) && '?' !in Encode(s)
    ensures Decode(Encode(s)) == s
  {
    if s != [] {
      EncodeMeaning(s[1..]);
      DecodeEncodeChar(s[0], Encode(s[1..]));
    }
  }

  /** A name or value made of letters, digits and `*-._` only. */
  predicate Plain(s: string) {
    forall i :: 0 <= i < |s| ==> IsUnreserved(s[i])
  }

  /** Such a string is written as it is. */
  lemma {:induction false} EncodePlain(s: string)
    requires Plain(s)
    ensures Encode(s) == s
  {
    if s != [] {
      assert Plain(s[1..]) by {
        forall i | 0 <= i < |s[1..]| ensures IsUnreserved(s[1..][i]) {
          assert s[1..][i] == s[i + 1];
        }
      }
      EncodePlain(s[1..]);
    }
  }

  /** One segment: its name and value, decoded. */
  function ParsePair(seg: string): (string, string) {
    var raw := SplitPair(seg);
    (Decode(raw.0), Decode(raw.1))
  }

  /** Empty segments (from "&&" or a trailing '&') produce no pair. */
  function ParseSegments(segs: seq<string>): Pairs {
    if segs == [] then []
    else if segs[0] == "" then ParseSegments(segs[1..])
    else [ParsePair(segs[0])] + ParseSegments(segs[1..])
  }

  /** `new URLSearchParams(s)`: one leading '?' is dropped, then the rest is
      split on '&'. */
  function Parse(s: string): Pairs {
    var body := if s != [] && s[0] == '?' then s[1..] else s;
    ParseSegments(Split(body, '&'))
  }

  function SerialisePair(p: (string, string)): string {
    Encode(p.0) + "=" + Encode(p.1)
  }

  /** `params.toString()`: every pair as `name=value`, escaped, joined with '&'. */
  function Serialise(ps: Pairs): string {
    if ps == [] then ""
    else if |ps| == 1 then SerialisePair(ps[0])
    else SerialisePair(ps[0]) + "&" + Serialise(ps[1..])
  }

  /** A pair of plain strings is written as `name=value`. */
  lemma PlainPair(p: (string, string))
    requires Plain(p.0) && Plain(p.1)
    ensures SerialisePair(p) == p.0 + "=" + p.1
  {
    EncodePlain(p.0);
    EncodePlain(p.1);
  }

  /** Two pairs of plain strings are written as `name=value&name=value`. */
  lemma PlainTwo(p: (string, string), q: (string, string))
    requires Plain(p.0) && Plain(p.1) && Plain(q.0) && Plain(q.1)
    ensures Serialise([p, q]) == p.0 + "=" + p.1 + "&" + q.0 + "=" + q.1
  {
    PlainPair(p);
    PlainPair(q);
    assert [p, q][1..] == [q];
  }

  /** The empty string holds no pairs. */
  lemma ParseEmpty(s: string)
    requires s == ""
    ensures Parse(s) == []
  {
    assert IndexOf(s, '&') == 0;
    var segs := Split(s, '&');
    assert segs == [""];
    assert segs[1..] == [];
    assert ParseSegments(segs) == ParseSegments(segs[1..]);
  }

  /** A lone name without '=' is one pair, the decoded name with an empty value. */
  lemma ParseLoneName(s: string)
    requires s != "" && s[0] != '?' && '&' !in s && '=' !in s
    ensures Parse(s) == [(Decode(s), "")]
  {
    IndexOfAbsent(s, '&');
    IndexOfAbsent(s, '=');
    var segs := Split(s, '&');
    assert segs == [s];
    assert segs[1..] == [];
    assert ParseSegments(segs) == [ParsePair(s)] + ParseSegments(segs[1..]);
  }

  /** A lone plain name is one pair with that name and an empty value. */
  lemma ParsePlainName(s: string)
    requires s != "" && Plain(s)
    ensures Parse(s) == [(s, "")]
  {
    assert IsUnreserved(s[0]);
    ParseLoneName(s);
    EncodePlain(s);
    EncodeMeaning(s);
  }

  /** Only an empty list of pairs serialises to the empty string, since every
      pair contributes at least its '='. */
  lemma SerialiseEmpty(ps: Pairs)
    ensures Serialise(ps) == "" <==> ps == []
  {
    if ps != [] {
      assert SerialisePair(ps[0])[|Encode(ps[0].0)|] == '=';
    }
  }

  /** `params.has(k)`: the name is compared exactly, case included. */
  predicate Has(ps: Pairs, k: string) {
    exists i :: 0 <= i < |ps| && ps[i].0 == k
  }

  /** `params.delete(k)`: every pair named `k` goes, the rest keep their order. */
  function Delete(ps: Pairs, k: string): (r: Pairs)
    ensures forall p :: p in r <==> p in ps && p.0 != k
    ensures r == Strip(ps, [k])
    ensures !Has(r, k)
    ensures |r| <= |ps|
  {
    if ps == [] then []
    else if ps[0].0 == k then Delete(ps[1..], k)
    else [ps[0]] + Delete(ps[1..], k)
  }

  /** The pairs whose names are not in `keys`, in their original order. */
  function Strip(ps: Pairs, keys: seq<string>): Pairs {
    if ps == [] then []
    else if ps[0].0 in keys then Strip(ps[1..], keys)
    else [ps[0]] + Strip(ps[1..], keys)
  }

  /** Some pair is named by one of `keys`. */
  predicate HitsAny(ps: Pairs, keys: seq<string>) {
    exists i :: 0 <= i < |ps| && ps[i].0 in keys
  }

  /** A single pair hits the keys exactly when its name is one of them. */
  lemma HitsOne(p: (string, string), keys: seq<string>)
    ensures HitsAny([p], keys) <==> p.0 in keys
  {
    assert [p][0] == p;
  }

  /** What Strip keeps: exactly the pairs of `ps` not named in `keys`; and it
      changes something exactly when some pair is named in `keys`. */
  lemma {:induction false} StripMeaning(ps: Pairs, keys: seq<string>)
    ensures forall p :: p in Strip(ps, keys) <==> p in ps && p.0 !in keys
    ensures Strip(ps, keys) == ps <==> !HitsAny(ps, keys)
    ensures |Strip(ps, keys)| <= |ps|
  {
    if ps != [] {
      StripMeaning(ps[1..], keys);
      if HitsAny(ps[1..], keys) {
        var i :| 0 <= i < |ps[1..]| && ps[1..][i].0 in keys;
        assert ps[i + 1].0 in keys;
      }
      if HitsAny(ps, keys) && ps[0].0 !in keys {
        var i :| 0 <= i < |ps| && ps[i].0 in keys;
        assert ps[1..][i - 1].0 in keys;
      }
    }
  }

  /** Nothing Strip keeps is named in `keys`. */
  lemma StripLeavesNoKey(ps: Pairs, keys: seq<string>)
    ensures !HitsAny(Strip(ps, keys), keys)
  {
    StripMeaning(ps, keys);
  }

  lemma {:induction false} DeleteAbsent(ps: Pairs, k: string)
    requires !Has(ps, k)
    ensures Delete(ps, k) == ps
  {
    if ps != [] {
      DeleteAbsent(ps[1..], k);
    }
  }

  lemma {:induction false} StripNothing(ps: Pairs)
    ensures Strip(ps, []) == ps
  {
    if ps != [] {
      StripNothing(ps[1..]);
    }
  }

  /** Deleting one more name after stripping a list of names strips the longer list. */
  lemma {:induction false} StripThenDelete(ps: Pairs, keys: seq<string>, k: string)
    ensures Delete(Strip(ps, keys), k) == Strip(ps, keys + [k])
  {
    if ps != [] {
      StripThenDelete(ps[1..], keys, k);
    }
  }

  lemma {:induction false} HasAfterStrip(ps: Pairs, keys: seq<string>, k: string)
    ensures Has(Strip(ps, keys), k) <==> Has(ps, k) && k !in keys
  {
    StripMeaning(ps, keys);
    if Has(Strip(ps, keys), k) {
      var i :| 0 <= i < |Strip(ps, keys)| && Strip(ps, keys)[i].0 == k;
      assert Strip(ps, keys)[i] in ps;
    }
    if Has(ps, k) && k !in keys {
      var i :| 0 <= i < |ps| && ps[i].0 == k;
      assert ps[i] in Strip(ps, keys);
    }
  }

  lemma {:induction false} IndexOfAfter(a: string, c: char, b: string)
    requires c !in a
    ensures IndexOf(a + [c] + b, c) == |a|
  {
    if a != [] {
      assert (a + [c] + b)[1..] == a[1..] + [c] + b;
      IndexOfAfter(a[1..], c, b);
    }
  }

  lemma {:induction false} IndexOfAbsent(a: string, c: char)
    requires c !in a
    ensures IndexOf(a, c) == |a|
  {
    if a != [] {
      IndexOfAbsent(a[1..], c);
    }
  }

  /** A pair as `toString` writes it reads back as itself, and the written
      form holds no '&'. */
  lemma ParsePairBack(p: (string, string))
    ensures ParsePair(SerialisePair(p)) == p
    ensures '&' !in SerialisePair(p)
  {
    EncodeMeaning(p.0);
    EncodeMeaning(p.1);
    var n, v := Encode(p.0), Encode(p.1);
    var sp := n + "=" + v;
    IndexOfAfter(n, '=', v);
    assert sp[..|n|] == n && sp[|n| + 1..] == v;
  }

  /** Splitting at a first separator that follows a segment without one. */
  lemma SplitAfter(sp: string, rest: string)
    requires '&' !in sp
    ensures Split(sp + "&" + rest, '&') == [sp] + Split(rest, '&')
  {
    IndexOfAfter(sp, '&', rest);
    assert (sp + "&" + rest)[..|sp|] == sp;
    assert (sp + "&" + rest)[|sp| + 1..] == rest;
  }

  /** Two non-empty segments without '&' joined by '&' are read as two pairs. */
  lemma ParseTwoSegments(a: string, b: string)
    requires a != "" && b != "" && '&' !in a && '&' !in b
    ensures ParseSegments(Split(a + "&" + b, '&')) == [ParsePair(a), ParsePair(b)]
  {
    SplitAfter(a, b);
    IndexOfAbsent(b, '&');
    var segs := Split(a + "&" + b, '&');
    assert segs == [a, b];
    assert segs[1..] == [b] && segs[1..][1..] == [];
    assert ParseSegments(segs[1..]) == [ParsePair(b)] + ParseSegments(segs[1..][1..]);
  }

  /** Inside a segment a '?' is an ordinary character: "?" + name = value,
      with a plain name and value, reads as the name with its '?'. */
  lemma ParseMarkedPair(n: string, v: string)
    requires Plain(n) && Plain(v)
    ensures ParsePair("?" + n + "=" + v) == ("?" + n, v)
  {
    assert '=' !in "?" + n by {
      forall i | 0 <= i < |"?" + n| ensures ("?" + n)[i] != '=' {
        if i > 0 {
          assert ("?" + n)[i] == n[i - 1];
        }
      }
    }
    IndexOfAfter("?" + n, '=', v);
    var seg := "?" + n + "=" + v;
    assert seg[..|n| + 1] == "?" + n && seg[|n| + 2..] == v;
    EncodePlain(n);
    EncodeMeaning(n);
    EncodePlain(v);
    EncodeMeaning(v);
    assert ("?" + n)[1..] == n;
  }

  /** Reading a written pair followed by '&' and more: that pair, then the rest. */
  lemma ParseSegmentsCons(sp: string, rest: string)
    requires sp != "" && '&' !in sp
    ensures ParseSegments(Split(sp + "&" + rest, '&')) == [ParsePair(sp)] + ParseSegments(Split(rest, '&'))
  {
    SplitAfter(sp, rest);
    assert ([sp] + Split(rest, '&'))[1..] == Split(rest, '&');
  }

  lemma {:induction false} ParseSegmentsOfSplit(ps: Pairs)
    ensures ParseSegments(Split(Serialise(ps), '&')) == ps
  {
    if ps != [] {
      var sp := SerialisePair(ps[0]);
      ParsePairBack(ps[0]);
      assert sp != "" by {
        assert sp[|Encode(ps[0].0)|] == '=';
      }
      if |ps| == 1 {
        IndexOfAbsent(sp, '&');
        assert Split(sp, '&') == [sp];
      } else {
        ParseSegmentsOfSplit(ps[1..]);
        ParseSegmentsCons(sp, Serialise(ps[1..]));
      }
    }
  }

  /** A query rebuilt as `"?" + params.toString()` parses back to the same
      pairs. */
  lemma ParseSerialisedQuery(s: string, ps: Pairs)
    requires s == "?" + Serialise(ps)
    ensures Parse(s) == ps
  {
    assert s[1..] == Serialise(ps);
    ParseSegmentsOfSplit(ps);
  }

  /** Without the leading '?' the round trip holds as well: a first name
      starting with '?' is written as `%3F`, so nothing is dropped. */
  lemma ParseSerialised(s: string, ps: Pairs)
    requires s == Serialise(ps)
    ensures Parse(s) == ps
  {
    ParseSegmentsOfSplit(ps);
    if ps != [] {
      var n := Encode(ps[0].0);
      EncodeMeaning(ps[0].0);
      assert Serialise(ps)[0] == SerialisePair(ps[0])[0];
      assert SerialisePair(ps[0])[0] == if n == [] then '=' else n[0];
    }
  }

  /** A query of one plain pair reads as that pair. */
  lemma ParsePlainQueryOne(s: string, p: (string, string))
    requires Plain(p.0) && Plain(p.1)
    requires s == "?" + p.0 + "=" + p.1
    ensures Parse(s) == [p]
  {
    PlainPair(p);
    ParseSerialisedQuery(s, [p]);
  }

  /** A query of two plain pairs reads as those pairs. */
  lemma ParsePlainQuery(s: string, p: (string, string), q: (string, string))
    requires Plain(p.0) && Plain(p.1) && Plain(q.0) && Plain(q.1)
    requires s == "?" + p.0 + "=" + p.1 + "&" + q.0 + "=" + q.1
    ensures Parse(s) == [p, q]
  {
    PlainTwo(p, q);
    ParseSerialisedQuery(s, [p, q]);
  }

  /** The same without the leading '?'. */
  lemma ParsePlainTwo(s: string, p: (string, string), q: (string, string))
    requires Plain(p.0) && Plain(p.1) && Plain(q.0) && Plain(q.1)
    requires s == p.0 + "=" + p.1 + "&" + q.0 + "=" + q.1
    ensures Parse(s) == [p, q]
  {
    PlainTwo(p, q);
    ParseSerialised(s, [p, q]);
  }

  /** A plain pair followed by one whose plain name is marked with '?' reads
      as those two pairs, the '?' kept in the second name. */
  lemma ParseMarkedTwo(s: string, p: (string, string), n: string, v: string)
    requires Plain(p.0) && Plain(p.1) && Plain(n) && Plain(v)
    requires s == (p.0 + "=" + p.1) + "&" + ("?" + n + "=" + v)
    ensures Parse(s) == [p, ("?" + n, v)]
  {
    var a, b := p.0 + "=" + p.1, "?" + n + "=" + v;
    assert ParsePair(a) == p && a != "" && '&' !in a && a[0] != '?' by {
      PlainPair(p);
      ParsePairBack(p);
      assert a[|p.0|] == '=';
      if p.0 != "" {
        assert a[0] == p.0[0];
      }
    }
    assert b != "" && '&' !in b by {
      forall i | 0 <= i < |b| ensures b[i] != '&' {
        if 0 < i <= |n| {
          assert b[i] == n[i - 1];
        } else if i > |n| + 1 {
          assert b[i] == v[i - |n| - 2];
        }
      }
    }
    assert ParsePair(b) == ("?" + n, v) by {
      ParseMarkedPair(n, v);
    }
    assert s[0] == a[0] by {
      assert (a + "&" + b)[0] == a[0];
    }
    ParseTwoSegments(a, b);
  }

  /** The `forEach` over the configured keys in both sanitizers: every key
      the params have is deleted, and the flag records whether any was. */
  method DeleteKeys(ps: Pairs, keys: seq<string>) returns (kept: Pairs, removed: bool)
    ensures kept == Strip(ps, keys)
    ensures removed <==> HitsAny(ps, keys)
  {
    kept, removed := ps, false;
    var n := 0;
    StripNothing(ps);
    while n < |keys|
      invariant 0 <= n <= |keys|
      invariant kept == Strip(ps, keys[..n])
      invariant removed <==> HitsAny(ps, keys[..n])
    {
      var k := keys[n];
      assert keys[..n + 1] == keys[..n] + [k];
      HasAfterStrip(ps, keys[..n], k);
      StripThenDelete(ps, keys[..n], k);
      if Has(kept, k) {
        kept := Delete(kept, k);
        removed := true;
      } else {
        DeleteAbsent(kept, k);
        if k in keys[..n] {
          assert HitsAny(ps, keys[..n + 1]) ==> HitsAny(ps, keys[..n]);
        }
      }
      n := n + 1;
    }
    assert keys[..n] == keys;
  }
}
