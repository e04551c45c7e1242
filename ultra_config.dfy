/** Ultra Shield's runtime configuration (ultra-shield.js, section 1), the
    partial merge `mergeConfig` performs on it, and the incident events it
    hands to its logger. */
module UltraConfig {
  import opened Js
  import opened Outbound

  /** The `mode` setting. Any string other than the three documented ones
      behaves like "monitor" except where the code tests for "monitor" itself. */
  datatype Mode = Reject | Sanitize | Monitor | Unrecognised(name: string)

  datatype Config = Config(
    forbiddenKeys: seq<string>,
    mode: Mode,
    redactValue: Value,
    enabledContexts: map<string, bool>)

  /** DEFAULT_CONFIG.forbiddenKeys */
  const DefaultKeys: seq<string> :=
    ["token", "access_token", "id_token", "auth_token", "jwt", "refresh_token", "sess_token"]

  /** DEFAULT_CONFIG, without its logger (the logger is the event log). */
  const DefaultConfig: Config := Config(
    DefaultKeys,
    Reject,
    Str("[REDACTED_TOKEN]"),
    map["query" := true, "headers" := true, "body" := true, "cookies" := true,
        "urlFragment" := true, "fetch" := true, "xhr" := true, "sendBeacon" := true])

  /** The argument of `mergeConfig`. NotAnObject is any falsy or non-object
      value. In a Partial, None marks a property the object does not have;
      `enabledContexts` lists the flags it supplies (none when it has no such
      property). */
  datatype ConfigArg =
    | NotAnObject
    | Partial(
        forbiddenKeys: Option<seq<string>>,
        mode: Option<Mode>,
        redactValue: Option<Value>,
        enabledContexts: map<string, bool>)

  function Supplied<T>(given: Option<T>, current: T): T {
    match given
    case Some(v) => v
    case None => current
  }

  /** `{ ...current, ...partial, enabledContexts: { ...current.enabledContexts,
      ...(partial.enabledContexts || {}) } }`: a supplied property replaces the
      old one as a whole, an absent one keeps its value, and the context flags
      are merged flag by flag. */
  function Merge(current: Config, arg: ConfigArg): (r: Config)
    ensures arg.NotAnObject? ==> r == current
    ensures arg.Partial? && arg.forbiddenKeys.None? ==> r.forbiddenKeys == current.forbiddenKeys
    ensures arg.Partial? && arg.forbiddenKeys.Some? ==> r.forbiddenKeys == arg.forbiddenKeys.value
    ensures arg.Partial? && arg.mode.None? ==> r.mode == current.mode
    ensures arg.Partial? && arg.mode.Some? ==> r.mode == arg.mode.value
    ensures arg.Partial? && arg.redactValue.None? ==> r.redactValue == current.redactValue
    ensures arg.Partial? && arg.redactValue.Some? ==> r.redactValue == arg.redactValue.value
    ensures arg.Partial? ==> r.enabledContexts.Keys == current.enabledContexts.Keys + arg.enabledContexts.Keys
    ensures arg.Partial? ==> forall c :: c in arg.enabledContexts ==> r.enabledContexts[c] == arg.enabledContexts[c]
    ensures arg.Partial? ==> forall c :: c in current.enabledContexts && c !in arg.enabledContexts ==>
                                         r.enabledContexts[c] == current.enabledContexts[c]
  {
    match arg
    case NotAnObject => current
    case Partial(keys, mode, redact, flags) =>
      Config(
        Supplied(keys, current.forbiddenKeys),
        Supplied(mode, current.mode),
        Supplied(redact, current.redactValue),
        current.enabledContexts + flags)
  }

  /** Every context is switched on by default. */
  lemma DefaultEnablesAll()
    ensures Enabled(DefaultConfig, "query") && Enabled(DefaultConfig, "headers")
    ensures Enabled(DefaultConfig, "body") && Enabled(DefaultConfig, "cookies")
    ensures Enabled(DefaultConfig, "urlFragment") && Enabled(DefaultConfig, "fetch")
    ensures Enabled(DefaultConfig, "xhr") && Enabled(DefaultConfig, "sendBeacon")
  {
  }

  /** `RUNTIME_CONFIG.enabledContexts[name]` is truthy (a missing flag is undefined). */
  predicate Enabled(cfg: Config, name: string) {
    name in cfg.enabledContexts && cfg.enabledContexts[name]
  }

  /** Setting the mode and then switching one context off keeps the deny-list
      and every other flag of the first configuration. */
  lemma MergeKeepsEarlierSettings(cfg: Config, mode: Mode, flag: string, other: string)
    requires other != flag
    ensures var first := Merge(cfg, Partial(None, Some(mode), None, map[]));
            var second := Merge(first, Partial(None, None, None, map[flag := false]));
            && second.forbiddenKeys == cfg.forbiddenKeys
            && second.mode == mode
            && !Enabled(second, flag)
            && Enabled(second, other) == Enabled(cfg, other)
  {
  }

  /** The `meta` object attached to an event; `meta || {}` of a scan without
      meta is NoMeta. In RequestMeta, `ip` is None for `null`. In XhrMeta,
      `verb` is None and `url` is NoUrl while `open` has not been called. */
  datatype Meta =
    | NoMeta
    | RequestMeta(ip: Option<string>, path: string, verb: string)
    | TransportMeta(url: UrlArg, context: string)
    | XhrMeta(xhrVerb: Option<string>, xhrUrl: UrlArg)

  /** The incident events passed to `RUNTIME_CONFIG.logger`. */
  datatype Event =
    | ForbiddenKey(context: string, key: string, meta: Meta)
    | TransportBlock(context: string, detail: string, meta: Meta)
    | LocationError(detail: string)
}
