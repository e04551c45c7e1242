/** Ultra Shield's object scanner, `scanObject` (ultra-shield.js, section 2):
    which keys are forbidden, what the sanitized copy holds under each mode,
    and which events are logged. */
module UltraScan {
  import opened Text
  import opened Js
  import opened UltraConfig

  /** `forbidden.includes(rawKey.toLowerCase())`, where `forbidden` is the
      configured key list lower-cased: an exact match after lower-casing both. */
  predicate IsForbidden(keys: seq<string>, k: string) {
    Lower(k) in LowerAll(keys)
  }

  predicate HasForbiddenKey(keys: seq<string>, fs: Fields) {
    exists i :: 0 <= i < |fs| && IsForbidden(keys, fs[i].0)
  }

  /** The `incident` flag, decided one key at a time. */
  predicate AnyForbidden(keys: seq<string>, fs: Fields) {
    fs != [] && (IsForbidden(keys, fs[0].0) || AnyForbidden(keys, fs[1..]))
  }

  lemma {:induction false} AnyForbiddenMeaning(keys: seq<string>, fs: Fields)
    ensures AnyForbidden(keys, fs) <==> HasForbiddenKey(keys, fs)
  {
    if fs != [] {
      AnyForbiddenMeaning(keys, fs[1..]);
      if HasForbiddenKey(keys, fs[1..]) {
        var i :| 0 <= i < |fs[1..]| && IsForbidden(keys, fs[1..][i].0);
        assert fs[i + 1] == fs[1..][i];
      }
      if HasForbiddenKey(keys, fs) && !IsForbidden(keys, fs[0].0) {
        var i :| 0 <= i < |fs| && IsForbidden(keys, fs[i].0);
        assert fs[1..][i - 1] == fs[i];
      }
    }
  }

  function CountForbidden(keys: seq<string>, fs: Fields): nat {
    if fs == [] then 0
    else (if IsForbidden(keys, fs[0].0) then 1 else 0) + CountForbidden(keys, fs[1..])
  }

  /** The sanitized copy: allowed entries are copied as they are; a forbidden
      key gets the redaction value under "sanitize" and is left out otherwise.
      (Object keys are distinct, so each assignment into the fresh container
      appends.) */
  function SanitizedFields(cfg: Config, fs: Fields): Fields {
    if fs == [] then []
    else if IsForbidden(cfg.forbiddenKeys, fs[0].0) then
      (if cfg.mode == Sanitize then [(fs[0].0, cfg.redactValue)] else []) + SanitizedFields(cfg, fs[1..])
    else [fs[0]] + SanitizedFields(cfg, fs[1..])
  }

  /** One `forbidden_key` event per forbidden key, in key order. */
  function Events(cfg: Config, fs: Fields, context: string, meta: Meta): seq<Event> {
    if fs == [] then []
    else if IsForbidden(cfg.forbiddenKeys, fs[0].0) then
      [ForbiddenKey(context, fs[0].0, meta)] + Events(cfg, fs[1..], context, meta)
    else Events(cfg, fs[1..], context, meta)
  }

  datatype ScanResult = ScanResult(incident: bool, sanitized: Value)

  /** `scanObject(obj)`: a value that is not an object comes back unchanged and
      never counts as an incident; an object (or array) is copied into a
      container of the same shape. */
  function Scan(cfg: Config, obj: Value): (r: ScanResult)
    ensures !obj.Obj? ==> r == ScanResult(false, obj)
    ensures obj.Obj? ==> r.sanitized.Obj? && r.sanitized.isArray == obj.isArray
  {
    if !obj.Obj? then ScanResult(false, obj)
    else ScanResult(AnyForbidden(cfg.forbiddenKeys, obj.fields),
                    Obj(obj.isArray, SanitizedFields(cfg, obj.fields)))
  }

  /** The events one `scanObject` call logs. */
  function ScanEvents(cfg: Config, obj: Value, context: string, meta: Meta): seq<Event> {
    if obj.Obj? then Events(cfg, obj.fields, context, meta) else []
  }

  /** The copy and the events of a concatenation are those of its parts, so
      both can be built one key at a time. */
  lemma {:induction false} ScanAppend(cfg: Config, a: Fields, b: Fields, context: string, meta: Meta)
    ensures SanitizedFields(cfg, a + b) == SanitizedFields(cfg, a) + SanitizedFields(cfg, b)
    ensures Events(cfg, a + b, context, meta) == Events(cfg, a, context, meta) + Events(cfg, b, context, meta)
  {
    if a == [] {
      assert a + b == b;
    } else {
      assert (a + b)[1..] == a[1..] + b;
      ScanAppend(cfg, a[1..], b, context, meta);
    }
  }

  /** Extending a prefix of the keys by one key extends the copy and the
      events by that key's share, and finds a forbidden key exactly when the
      prefix had one or the new key is one. */
  lemma ScanStep(cfg: Config, fs: Fields, i: nat, context: string, meta: Meta)
    requires i < |fs|
    ensures HasForbiddenKey(cfg.forbiddenKeys, fs[..i + 1]) <==>
              HasForbiddenKey(cfg.forbiddenKeys, fs[..i]) || IsForbidden(cfg.forbiddenKeys, fs[i].0)
    ensures SanitizedFields(cfg, fs[..i + 1]) == SanitizedFields(cfg, fs[..i]) + SanitizedFields(cfg, [fs[i]])
    ensures Events(cfg, fs[..i + 1], context, meta) == Events(cfg, fs[..i], context, meta) + Events(cfg, [fs[i]], context, meta)
  {
    assert fs[..i + 1] == fs[..i] + [fs[i]];
    ScanAppend(cfg, fs[..i], [fs[i]], context, meta);
    if HasForbiddenKey(cfg.forbiddenKeys, fs[..i + 1]) && !IsForbidden(cfg.forbiddenKeys, fs[i].0) {
      var j :| 0 <= j < i + 1 && IsForbidden(cfg.forbiddenKeys, fs[..i + 1][j].0);
      assert j < i && fs[..i][j] == fs[..i + 1][j];
    }
  }

  /** An incident is reported exactly when some key, lower-cased, equals some
      configured key, lower-cased. */
  lemma IncidentIffLowerCaseMatch(cfg: Config, obj: Value)
    ensures Scan(cfg, obj).incident <==>
            obj.Obj? && exists i, j :: 0 <= i < |obj.fields| && 0 <= j < |cfg.forbiddenKeys|
                                      && Lower(obj.fields[i].0) == Lower(cfg.forbiddenKeys[j])
  {
    LowerAllAt(cfg.forbiddenKeys);
    if obj.Obj? {
      AnyForbiddenMeaning(cfg.forbiddenKeys, obj.fields);
    }
    if obj.Obj? && Scan(cfg, obj).incident {
      var i :| 0 <= i < |obj.fields| && IsForbidden(cfg.forbiddenKeys, obj.fields[i].0);
      var j :| 0 <= j < |cfg.forbiddenKeys| && LowerAll(cfg.forbiddenKeys)[j] == Lower(obj.fields[i].0);
    }
  }

  /** A key whose length no configured key has is never forbidden. */
  lemma LengthMismatchAllowed(keys: seq<string>, k: string)
    requires forall j :: 0 <= j < |keys| ==> |keys[j]| != |k|
    ensures !IsForbidden(keys, k)
  {
    LowerAllAt(keys);
  }

  /** Matching is exact, not by substring: with the default keys "tokenized"
      is allowed, although it contains "token". */
  lemma DefaultKeysMatchWholeKeys()
    ensures !IsForbidden(DefaultConfig.forbiddenKeys, "tokenized")
  {
    var keys := DefaultConfig.forbiddenKeys;
    assert |keys| == 7;
    assert |keys[0]| == 5 && |keys[1]| == 12 && |keys[2]| == 8 && |keys[3]| == 10;
    assert |keys[4]| == 3 && |keys[5]| == 13 && |keys[6]| == 10;
    LengthMismatchAllowed(keys, "tokenized");
  }

  /** Matching ignores case: with the default keys "Access_Token" is forbidden. */
  lemma DefaultKeysIgnoreCase()
    ensures IsForbidden(DefaultConfig.forbiddenKeys, "Access_Token")
  {
    var keys := DefaultConfig.forbiddenKeys;
    LowersToAccessToken("Access_Token");
    LowerIsLowerCase("Access_Token");
    LowerAllAt(keys);
    assert LowerAll(keys)[1] == Lower("access_token");
  }

  /** "Access_Token" lower-cases to the default key "access_token". */
  lemma LowersToAccessToken(k: string)
    requires k == "Access_Token"
    ensures Lower(k) == "access_token"
  {
    var r := Lower(k);
    LowerAt(k);
    assert LowerChar('A') == 'a' && LowerChar('T') == 't';
    assert forall i :: 0 <= i < |k| && i != 0 && i != 7 ==> !IsUpperAscii(k[i]);
    assert r == "access_token";
  }

  /** Under "sanitize" the copy has every key of the input, in order, and only
      the forbidden ones have their value replaced by the redaction value. */
  lemma {:induction false} SanitizeModeRedacts(cfg: Config, fs: Fields)
    requires cfg.mode == Sanitize
    ensures |SanitizedFields(cfg, fs)| == |fs|
    ensures forall i :: 0 <= i < |fs| ==>
              SanitizedFields(cfg, fs)[i] ==
                (fs[i].0, if IsForbidden(cfg.forbiddenKeys, fs[i].0) then cfg.redactValue else fs[i].1)
  {
    if fs != [] {
      SanitizeModeRedacts(cfg, fs[1..]);
    }
  }

  /** Under "reject", "monitor" (or any other mode) the copy is the input
      with the forbidden entries left out: the same entries otherwise, in the
      same order. */
  lemma {:induction false} OtherModesOmit(cfg: Config, fs: Fields)
    requires cfg.mode != Sanitize
    ensures forall p :: p in SanitizedFields(cfg, fs) <==> p in fs && !IsForbidden(cfg.forbiddenKeys, p.0)
    ensures IsSubsequence(SanitizedFields(cfg, fs), fs)
    ensures |SanitizedFields(cfg, fs)| == |fs| - CountForbidden(cfg.forbiddenKeys, fs)
  {
    if fs != [] {
      OtherModesOmit(cfg, fs[1..]);
      var rest := SanitizedFields(cfg, fs[1..]);
      if !IsForbidden(cfg.forbiddenKeys, fs[0].0) {
        assert ([fs[0]] + rest)[1..] == rest;
      } else {
        assert SanitizedFields(cfg, fs) == rest;
        SkipHeadKeepsSubsequence(rest, fs);
      }
    }
  }

  /** Exactly one `forbidden_key` event per forbidden key, carrying the key as
      it was written, the context and the caller's meta. */
  lemma {:induction false} OneEventPerForbiddenKey(cfg: Config, fs: Fields, context: string, meta: Meta)
    ensures |Events(cfg, fs, context, meta)| == CountForbidden(cfg.forbiddenKeys, fs)
    ensures forall e :: e in Events(cfg, fs, context, meta) ==>
              e.ForbiddenKey? && e.context == context && e.meta == meta && IsForbidden(cfg.forbiddenKeys, e.key)
    ensures forall i :: 0 <= i < |fs| && IsForbidden(cfg.forbiddenKeys, fs[i].0) ==>
              ForbiddenKey(context, fs[i].0, meta) in Events(cfg, fs, context, meta)
    ensures CountForbidden(cfg.forbiddenKeys, fs) > 0 <==> HasForbiddenKey(cfg.forbiddenKeys, fs)
  {
    if fs != [] {
      OneEventPerForbiddenKey(cfg, fs[1..], context, meta);
      forall i | 0 < i < |fs| && IsForbidden(cfg.forbiddenKeys, fs[i].0)
        ensures ForbiddenKey(context, fs[i].0, meta) in Events(cfg, fs, context, meta)
      {
        assert fs[1..][i - 1] == fs[i];
      }
      if HasForbiddenKey(cfg.forbiddenKeys, fs[1..]) {
        var i :| 0 <= i < |fs[1..]| && IsForbidden(cfg.forbiddenKeys, fs[1..][i].0);
        assert IsForbidden(cfg.forbiddenKeys, fs[i + 1].0);
      }
      if HasForbiddenKey(cfg.forbiddenKeys, fs) && !IsForbidden(cfg.forbiddenKeys, fs[0].0) {
        var i :| 0 <= i < |fs| && IsForbidden(cfg.forbiddenKeys, fs[i].0);
        assert IsForbidden(cfg.forbiddenKeys, fs[1..][i - 1].0);
      }
    }
  }

  /** With no forbidden key, the sanitized copy equals the input. */
  lemma {:induction false} NothingForbiddenCopiesAll(cfg: Config, fs: Fields)
    requires !HasForbiddenKey(cfg.forbiddenKeys, fs)
    ensures SanitizedFields(cfg, fs) == fs
  {
    if fs != [] {
      assert !IsForbidden(cfg.forbiddenKeys, fs[0].0);
      NothingForbiddenCopiesAll(cfg, fs[1..]);
    }
  }

  /** A container without forbidden keys is passed through untouched. */
  lemma CleanInputPassesThrough(cfg: Config, obj: Value)
    requires obj.Obj? ==> !HasForbiddenKey(cfg.forbiddenKeys, obj.fields)
    ensures Scan(cfg, obj) == ScanResult(false, obj)
  {
    if obj.Obj? {
      AnyForbiddenMeaning(cfg.forbiddenKeys, obj.fields);
      NothingForbiddenCopiesAll(cfg, obj.fields);
    }
  }

  /** Under "reject" and "monitor" the sanitized copy is clean: scanning it
      again reports no incident and returns it unchanged. */
  lemma RescanAfterOmitting(cfg: Config, obj: Value)
    requires cfg.mode != Sanitize
    ensures var s := Scan(cfg, obj).sanitized;
            Scan(cfg, s) == ScanResult(false, s)
  {
    if obj.Obj? {
      var out := SanitizedFields(cfg, obj.fields);
      OtherModesOmit(cfg, obj.fields);
      CleanInputPassesThrough(cfg, Obj(obj.isArray, out));
    }
  }

  /** Under "sanitize" the sanitized copy is a fixed point, but it still
      reports the incident, because the redacted keys are kept. */
  lemma RescanAfterRedacting(cfg: Config, obj: Value)
    requires cfg.mode == Sanitize
    ensures var s := Scan(cfg, obj).sanitized;
            Scan(cfg, s).sanitized == s && Scan(cfg, s).incident == Scan(cfg, obj).incident
  {
    if obj.Obj? {
      var fs := obj.fields;
      var out := SanitizedFields(cfg, fs);
      SanitizeModeRedacts(cfg, fs);
      SanitizeModeRedacts(cfg, out);
      assert SanitizedFields(cfg, out) == out;
      AnyForbiddenMeaning(cfg.forbiddenKeys, fs);
      AnyForbiddenMeaning(cfg.forbiddenKeys, out);
      if HasForbiddenKey(cfg.forbiddenKeys, fs) {
        var i :| 0 <= i < |fs| && IsForbidden(cfg.forbiddenKeys, fs[i].0);
        assert out[i].0 == fs[i].0;
      }
      if HasForbiddenKey(cfg.forbiddenKeys, out) {
        var i :| 0 <= i < |out| && IsForbidden(cfg.forbiddenKeys, out[i].0);
        assert out[i].0 == fs[i].0;
      }
    }
  }
}
