/** String helpers shared by the firewall and the player: ASCII lower-casing
    (the model's stand-in for String.prototype.toLowerCase), JavaScript's
    `trim`, and the `endsWith` / `includes` tests. */
module Text {

  predicate IsUpperAscii(c: char) {
    'A' <= c <= 'Z'
  }

  /** toLowerCase restricted to ASCII: A-Z become a-z, every other character is kept. */
  function LowerChar(c: char): (d: char)
    ensures IsUpperAscii(c) ==> d as int == c as int + 32
    ensures !IsUpperAscii(c) ==> d == c
    ensures !IsUpperAscii(d)
  {
    if IsUpperAscii(c) then (c as int + 32) as char else c
  }

  function Lower(s: string): (r: string)
    ensures |r| == |s|
  {
    if s == [] then [] else [LowerChar(s[0])] + Lower(s[1..])
  }

  /** Lower-casing works character by character. */
  lemma {:induction false} LowerAt(s: string)
    ensures forall i :: 0 <= i < |s| ==> Lower(s)[i] == LowerChar(s[i])
  {
    if s != [] {
      LowerAt(s[1..]);
      assert forall i :: 1 <= i < |s| ==> Lower(s)[i] == Lower(s[1..])[i - 1];
    }
  }

  /** A string toLowerCase leaves unchanged. */
  predicate IsLowerCase(s: string) {
    forall i :: 0 <= i < |s| ==> !IsUpperAscii(s[i])
  }

  lemma LowerIsLowerCase(s: string)
    ensures IsLowerCase(Lower(s))
    ensures Lower(Lower(s)) == Lower(s)
  {
    LowerAt(s);
    LowerAt(Lower(s));
    assert forall i :: 0 <= i < |s| ==> Lower(Lower(s))[i] == Lower(s)[i];
  }

  lemma LowerOfLowerCase(s: string)
    requires IsLowerCase(s)
    ensures Lower(s) == s
  {
  }

  /** Lower-cases every element of a list of keys (the `map` over forbiddenKeys). */
  function LowerAll(ks: seq<string>): (r: seq<string>)
    ensures |r| == |ks|
  {
    if ks == [] then [] else [Lower(ks[0])] + LowerAll(ks[1..])
  }

  lemma {:induction false} LowerAllAt(ks: seq<string>)
    ensures forall i :: 0 <= i < |ks| ==> LowerAll(ks)[i] == Lower(ks[i])
  {
    if ks != [] {
      LowerAllAt(ks[1..]);
      assert forall i :: 1 <= i < |ks| ==> LowerAll(ks)[i] == LowerAll(ks[1..])[i - 1];
    }
  }

  /** JavaScript's WhiteSpace and LineTerminator code points, the characters `trim` removes. */
  predicate IsJsSpace(c: char) {
    c == '\t' || c == '\n' || c == '\U{000B}' || c == '\U{000C}' || c == '\r' || c == ' '
    || c == '\U{00A0}' || c == '\U{1680}' || ('\U{2000}' <= c <= '\U{200A}')
    || c == '\U{2028}' || c == '\U{2029}' || c == '\U{202F}' || c == '\U{205F}'
    || c == '\U{3000}' || c == '\U{FEFF}'
  }

  predicate AllSpace(s: string) {
    forall i :: 0 <= i < |s| ==> IsJsSpace(s[i])
  }

  /** Drops the leading white space. */
  function TrimStart(s: string): (r: string)
    ensures |r| <= |s|
  {
    if s != [] && IsJsSpace(s[0]) then TrimStart(s[1..]) else s
  }

  /** Drops the trailing white space. */
  function TrimEnd(s: string): (r: string)
    ensures |r| <= |s|
  {
    if s != [] && IsJsSpace(s[|s| - 1]) then TrimEnd(s[..|s| - 1]) else s
  }

  /** TrimStart returns a suffix of `s`, everything it dropped is white
      space, and the result does not start with white space. */
  lemma {:induction false} TrimStartMeaning(s: string)
    ensures var r := TrimStart(s);
            && r == s[|s| - |r|..]
            && AllSpace(s[..|s| - |r|])
            && (r == [] || !IsJsSpace(r[0]))
  {
    if s != [] && IsJsSpace(s[0]) {
      TrimStartMeaning(s[1..]);
      var r := TrimStart(s);
      assert s[..|s| - |r|] == [s[0]] + s[1..][..|s| - 1 - |r|];
    }
  }

  /** TrimEnd returns a prefix of `s`, everything it dropped is white space,
      and the result does not end with white space. */
  lemma {:induction false} TrimEndMeaning(s: string)
    ensures var r := TrimEnd(s);
            && r == s[..|r|]
            && AllSpace(s[|r|..])
            && (r == [] || !IsJsSpace(r[|r| - 1]))
  {
    if s != [] && IsJsSpace(s[|s| - 1]) {
      TrimEndMeaning(s[..|s| - 1]);
      var r := TrimEnd(s);
      assert s[|r|..] == s[..|s| - 1][|r|..] + [s[|s| - 1]];
    }
  }

  function Trim(s: string): string {
    TrimEnd(TrimStart(s))
  }

  lemma {:induction false} TrimStartPadded(p: string, x: string)
    requires AllSpace(p)
    ensures TrimStart(p + x) == TrimStart(x)
  {
    if p != [] {
      assert IsJsSpace((p + x)[0]) by { assert (p + x)[0] == p[0]; }
      assert (p + x)[1..] == p[1..] + x;
      TrimStartPadded(p[1..], x);
    } else {
      assert p + x == x;
    }
  }

  lemma {:induction false} TrimEndPadded(x: string, q: string)
    requires AllSpace(q)
    ensures TrimEnd(x + q) == TrimEnd(x)
  {
    if q != [] {
      var n := |x + q|;
      assert (x + q)[n - 1] == q[|q| - 1];
      assert (x + q)[..n - 1] == x + q[..|q| - 1];
      TrimEndPadded(x, q[..|q| - 1]);
    } else {
      assert x + q == x;
    }
  }

  lemma {:induction false} TrimStartAppend(x: string, q: string)
    requires TrimStart(x) != []
    ensures TrimStart(x + q) == TrimStart(x) + q
  {
    assert (x + q)[0] == x[0];
    if IsJsSpace(x[0]) {
      assert (x + q)[1..] == x[1..] + q;
      TrimStartAppend(x[1..], q);
    }
  }

  lemma {:induction false} TrimStartAllSpace(x: string, q: string)
    requires TrimStart(x) == []
    ensures TrimStart(x + q) == TrimStart(q)
  {
    if x != [] {
      assert (x + q)[0] == x[0];
      assert (x + q)[1..] == x[1..] + q;
      TrimStartAllSpace(x[1..], q);
    } else {
      assert x + q == q;
    }
  }

  /** Surrounding white space never changes what `trim` returns. */
  lemma TrimIgnoresPadding(p: string, u: string, q: string)
    requires AllSpace(p) && AllSpace(q)
    ensures Trim(p + u + q) == Trim(u)
  {
    assert p + u + q == p + (u + q);
    TrimStartPadded(p, u + q);
    if TrimStart(u) != [] {
      TrimStartAppend(u, q);
      TrimEndPadded(TrimStart(u), q);
    } else {
      TrimStartAllSpace(u, q);
      TrimStartPadded(q, []);
      assert q + [] == q;
    }
  }

  lemma LowerCharKeepsSpace(c: char)
    ensures IsJsSpace(LowerChar(c)) <==> IsJsSpace(c)
  {
  }

  lemma {:induction false} LowerTrimStart(s: string)
    ensures Lower(TrimStart(s)) == TrimStart(Lower(s))
  {
    if s != [] {
      LowerCharKeepsSpace(s[0]);
      assert Lower(s)[1..] == Lower(s[1..]);
      LowerTrimStart(s[1..]);
    }
  }

  lemma {:induction false} LowerTrimEnd(s: string)
    ensures Lower(TrimEnd(s)) == TrimEnd(Lower(s))
  {
    if s != [] {
      var n := |s|;
      LowerCharKeepsSpace(s[n - 1]);
      LowerAt(s);
      LowerAt(s[..n - 1]);
      assert Lower(s)[..n - 1] == Lower(s[..n - 1]);
      LowerTrimEnd(s[..n - 1]);
    }
  }

  /** Trimming and ASCII lower-casing commute, because lower-casing never
      turns white space into something else or the reverse. */
  lemma LowerTrimCommute(s: string)
    ensures Lower(Trim(s)) == Trim(Lower(s))
  {
    LowerTrimStart(s);
    LowerTrimEnd(TrimStart(s));
  }

  predicate EndsWith(s: string, suffix: string) {
    |suffix| <= |s| && s[|s| - |suffix|..] == suffix
  }

  predicate OccursAt(s: string, part: string, i: nat) {
    i + |part| <= |s| && s[i..i + |part|] == part
  }

  predicate Includes(s: string, part: string) {
    exists i: nat :: i <= |s| && OccursAt(s, part, i)
  }

  function DigitChar(d: nat): (c: char)
    requires d < 10
    ensures '0' <= c <= '9' && c as int - '0' as int == d
  {
    (d + '0' as int) as char
  }

  /** The decimal spelling of `n`, as String(n) produces for a non-negative integer. */
  function NatToString(n: nat): (s: string)
    ensures |s| > 0
    ensures forall i :: 0 <= i < |s| ==> '0' <= s[i] <= '9'
    ensures n >= 10 ==> s[0] != '0'
  {
    if n < 10 then [DigitChar(n)] else NatToString(n / 10) + [DigitChar(n % 10)]
  }
}
