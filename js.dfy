/** The JavaScript values the firewalls inspect. An object is the ordered list
    of its own enumerable properties, in the order Object.keys reports them;
    assigning a property (`o[k] = v`) is `Put`. */
module Js {
  import opened Text

  datatype Option<T> = None | Some(value: T)

  datatype Value =
    | Undefined
    | Null
    | Bool(b: bool)
    | Num(n: int)
    | Str(s: string)
    | Obj(isArray: bool, fields: seq<(string, Value)>)

  type Fields = seq<(string, Value)>

  /** JavaScript truthiness (numbers are integers here, so NaN does not arise). */
  predicate Truthy(v: Value) {
    match v
    case Undefined => false
    case Null => false
    case Bool(b) => b
    case Num(n) => n != 0
    case Str(s) => s != ""
    case Obj(_, _) => true
  }

  /** `null` or `undefined`: Object.keys and Object.entries throw on these. */
  predicate IsNullish(v: Value) {
    v.Undefined? || v.Null?
  }

  function KeysOf(fs: Fields): (ks: seq<string>)
    ensures |ks| == |fs|
  {
    if fs == [] then [] else [fs[0].0] + KeysOf(fs[1..])
  }

  /** The keys in entry order, one per entry. */
  lemma {:induction false} KeysOfAt(fs: Fields)
    ensures forall i :: 0 <= i < |fs| ==> KeysOf(fs)[i] == fs[i].0
  {
    if fs != [] {
      KeysOfAt(fs[1..]);
      assert forall i :: 1 <= i < |fs| ==> KeysOf(fs)[i] == KeysOf(fs[1..])[i - 1];
    }
  }

  predicate Distinct(ks: seq<string>) {
    forall i, j :: 0 <= i < j < |ks| ==> ks[i] != ks[j]
  }

  /** What every real object satisfies: no key occurs twice. */
  predicate DistinctKeys(fs: Fields) {
    Distinct(KeysOf(fs))
  }

  /** Reading `o[k]` for an own property: the value stored under `k`, if any. */
  function Lookup(fs: Fields, k: string): (r: Option<Value>)
    ensures r.Some? <==> k in KeysOf(fs)
    ensures r.Some? ==> (k, r.value) in fs
  {
    if fs == [] then None
    else if fs[0].0 == k then Some(fs[0].1)
    else Lookup(fs[1..], k)
  }

  /** `o[k] = v` on an ordinary object: an existing key keeps its position and
      takes the new value, a new key goes to the end. */
  function Put(fs: Fields, k: string, v: Value): Fields {
    if fs == [] then [(k, v)]
    else if fs[0].0 == k then [(k, v)] + fs[1..]
    else [fs[0]] + Put(fs[1..], k, v)
  }

  /** After `o[k] = v` the object has the same keys (plus `k` at the end if
      it was new), `k` holds `v`, and every other key holds what it held. */
  lemma {:induction false} PutMeaning(fs: Fields, k: string, v: Value)
    ensures k in KeysOf(fs) ==> KeysOf(Put(fs, k, v)) == KeysOf(fs)
    ensures k !in KeysOf(fs) ==> KeysOf(Put(fs, k, v)) == KeysOf(fs) + [k]
    ensures Lookup(Put(fs, k, v), k) == Some(v)
    ensures forall k' :: k' != k ==> Lookup(Put(fs, k, v), k') == Lookup(fs, k')
  {
    if fs != [] && fs[0].0 != k {
      PutMeaning(fs[1..], k, v);
      assert KeysOf(fs) == [fs[0].0] + KeysOf(fs[1..]);
      assert Put(fs, k, v)[1..] == Put(fs[1..], k, v);
    } else if fs != [] {
      assert Put(fs, k, v)[1..] == fs[1..];
    }
  }

  /** Object.entries of a string: one entry per character, keyed by its index. */
  function IndexEntries(s: string): Fields {
    if s == [] then [] else IndexEntries(s[..|s| - 1]) + [(NatToString(|s| - 1), Str([s[|s| - 1]]))]
  }

  lemma {:induction false} IndexEntriesMeaning(s: string)
    ensures |IndexEntries(s)| == |s|
    ensures forall i :: 0 <= i < |s| ==> IndexEntries(s)[i] == (NatToString(i), Str([s[i]]))
  {
    if s != [] {
      IndexEntriesMeaning(s[..|s| - 1]);
    }
  }

  /** The entries Object.entries, Object.keys and for-in visit. Booleans and
      numbers have none; for null and undefined the caller decides, because
      Object.keys throws on them while for-in visits nothing. */
  function OwnEntries(v: Value): Fields {
    match v
    case Obj(_, fs) => fs
    case Str(s) => IndexEntries(s)
    case _ => []
  }

  /** The object `{}` gets when every key of `fs` is copied into it lower-cased,
      in order: `for (const k in h) out[k.toLowerCase()] = h[k]`. */
  function LowerKeys(fs: Fields): Fields {
    if fs == [] then []
    else Put(LowerKeys(fs[..|fs| - 1]), Lower(fs[|fs| - 1].0), fs[|fs| - 1].1)
  }

  /** Some key of `fs` lower-cases to `k`. */
  predicate HasLoweredKey(fs: Fields, k: string) {
    exists i :: 0 <= i < |fs| && Lower(fs[i].0) == k
  }

  /** The lowered copy has no repeated key, and its keys are exactly the
      lower-cased keys of the original. */
  lemma {:induction false} LowerKeysShape(fs: Fields)
    ensures DistinctKeys(LowerKeys(fs))
    ensures forall k :: k in KeysOf(LowerKeys(fs)) <==> HasLoweredKey(fs, k)
  {
    if fs != [] {
      var init := fs[..|fs| - 1];
      var k := Lower(fs[|fs| - 1].0);
      LowerKeysShape(init);
      PutMeaning(LowerKeys(init), k, fs[|fs| - 1].1);
      PutKeepsDistinct(LowerKeys(init), k, fs[|fs| - 1].1);
      forall k' {
        HasLoweredKeySnoc(fs, k');
      }
    }
  }

  lemma PutKeepsDistinct(fs: Fields, k: string, v: Value)
    requires DistinctKeys(fs)
    ensures DistinctKeys(Put(fs, k, v))
  {
    PutMeaning(fs, k, v);
  }

  lemma HasLoweredKeySnoc(fs: Fields, k: string)
    requires fs != []
    ensures HasLoweredKey(fs, k) <==> HasLoweredKey(fs[..|fs| - 1], k) || Lower(fs[|fs| - 1].0) == k
  {
    var init := fs[..|fs| - 1];
    if HasLoweredKey(fs, k) {
      var i :| 0 <= i < |fs| && Lower(fs[i].0) == k;
      if i < |fs| - 1 { assert init[i] == fs[i]; }
    }
    if HasLoweredKey(init, k) {
      var i :| 0 <= i < |init| && Lower(init[i].0) == k;
      assert fs[i] == init[i];
    }
  }

  /** When several keys lower-case to the same name, the last one's value is kept. */
  lemma {:induction false} LowerKeysLastWins(fs: Fields, i: nat)
    requires i < |fs|
    requires forall j :: i < j < |fs| ==> Lower(fs[j].0) != Lower(fs[i].0)
    ensures Lookup(LowerKeys(fs), Lower(fs[i].0)) == Some(fs[i].1)
  {
    PutMeaning(LowerKeys(fs[..|fs| - 1]), Lower(fs[|fs| - 1].0), fs[|fs| - 1].1);
    if i < |fs| - 1 {
      var init := fs[..|fs| - 1];
      assert init[i] == fs[i];
      LowerKeysLastWins(init, i);
    }
  }

  /** Every key of the lowered copy is in lower case. */
  lemma LowerKeysAreLowerCase(fs: Fields, k: string)
    requires k in KeysOf(LowerKeys(fs))
    ensures IsLowerCase(k)
  {
    LowerKeysShape(fs);
    var i :| 0 <= i < |fs| && Lower(fs[i].0) == k;
    LowerIsLowerCase(fs[i].0);
  }

  /** The header-copying loop of the three middlewares. */
  method LowerKeyed(fs: Fields) returns (lowered: Fields)
    ensures lowered == LowerKeys(fs)
  {
    lowered := [];
    var i := 0;
    while i < |fs|
      invariant 0 <= i <= |fs|
      invariant lowered == LowerKeys(fs[..i])
    {
      assert fs[..i + 1][..i] == fs[..i];
      lowered := Put(lowered, Lower(fs[i].0), fs[i].1);
      i := i + 1;
    }
    assert fs[..|fs|] == fs;
  }

  /** `a` is `b` with some elements left out, the rest in their order. */
  predicate IsSubsequence<T(==)>(a: seq<T>, b: seq<T>)
    decreases |b|
  {
    a == [] || (b != [] && if a[0] == b[0] then IsSubsequence(a[1..], b[1..]) else IsSubsequence(a, b[1..]))
  }

  lemma AppendAssoc<T>(a: seq<T>, b: seq<T>, c: seq<T>)
    ensures a + (b + c) == a + b + c
  {
  }

  /** A subsequence of the tail is a subsequence of the whole. */
  lemma {:induction false} SkipHeadKeepsSubsequence<T>(a: seq<T>, b: seq<T>)
    requires b != [] && IsSubsequence(a, b[1..])
    ensures IsSubsequence(a, b)
    decreases |b|, 0
  {
    if a != [] && a[0] == b[0] {
      SubsequenceDropsHead(a, b[1..]);
    }
  }

  /** Dropping the first element keeps a subsequence. */
  lemma {:induction false} SubsequenceDropsHead<T>(a: seq<T>, b: seq<T>)
    requires a != [] && IsSubsequence(a, b)
    ensures IsSubsequence(a[1..], b)
    decreases |b|, 1
  {
    if a[0] == b[0] {
      SkipHeadKeepsSubsequence(a[1..], b);
    } else {
      SubsequenceDropsHead(a, b[1..]);
      SkipHeadKeepsSubsequence(a[1..], b);
    }
  }

  /** The four parts of an incoming request the middlewares look at. */
  datatype ReqParts = ReqParts(query: Value, headers: Value, body: Value, cookies: Value)
}
