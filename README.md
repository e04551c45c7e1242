# Credential-leak firewall, modelled in Dafny

This project models a small front-end and Express toolkit whose job is to keep
access tokens out of URLs, request bodies, headers and cookies, together with
a few helpers of the video player that ships with it. It covers four files:

- `ultra-shield.js`, the main firewall. It holds a mutable runtime
  configuration (forbidden key names, a mode of `reject`, `sanitize` or
  `monitor`, a redaction value and per-context switches). It provides:
  - an object scanner;
  - an Express middleware that scans query, headers, body and cookies in that
    order;
  - `hardenLocation`, which strips forbidden parameters from the page
    address;
  - `shouldBlockTransport` and wrappers around `fetch`, `XMLHttpRequest`
    and `navigator.sendBeacon` that refuse calls carrying a forbidden key.
- `single-shield.js`, an earlier variant with a fixed list of six keys. Its
  scanner always redacts and its middleware ignores cookies. Its location
  cleaner rewrites the fragment whenever it is non-empty. Its fetch check
  compares body keys exactly.
- `token.js`, a stand-alone guard. It checks every part of the request and
  answers 400 with the list of the parts at fault.
- `player-advanced.js`, three pieces of it:
  - the stream-type classifier;
  - the logo lookup by channel title;
  - the open and close state of the lazily loaded overlay iframe.

## Module layout

- `Text` (text.dfy): ASCII lower-casing, JavaScript `trim`, `endsWith` and
  `includes`, and decimal index strings.
- `Js` (js.dfy): JavaScript values, with objects as ordered key/value lists;
  truthiness, `Object.keys`, property assignment and copying names
  lower-cased.
- `SearchParams` (search_params.dfy): `URLSearchParams` parsing and
  `toString` with the form-urlencoded escapes, `has` and `delete`, and the
  delete loop both sanitizers run.
- `Browser` (browser.dfy): the address (`pathname`, `search`, `hash`) and a
  `Page` class. Each of its `replaceState` calls either updates the address
  or throws, independently of the other calls.
- `Outbound` (outbound.dfy): the arguments of `fetch`, `XMLHttpRequest` and
  `sendBeacon`, carrying what `new URL` and `JSON.parse` make of them.
- `UltraConfig`, `UltraScan`, `UltraEnforce`, `UltraLocation` and
  `UltraTransport` (the `ultra_*.dfy` files): the firewall's specification
  functions and the lemmas about them.
- `UltraShield` (ultra_shield.dfy): the firewall as a stateful `Firewall`
  object. It holds the configuration, the log of every event handed to the
  logger, and how many times each transport was wrapped. Its methods are
  proved against the specification functions.
- `SingleShield` (single_shield.dfy) and `TokenGuard` (token_guard.dfy): the
  two other firewalls.
- `Player` (player.dfy): the player helpers, with the overlay as a class.

Some behaviours of the code as written are modelled as they are:

- `hardenLocation`, `inspectUrlString` and the single-shield location and
  URL checks compare parameter names case-sensitively. `inspectBodyString`
  lower-cases body keys but not the configured keys.
- Patching a transport twice wraps it twice: the model counts layers and
  proves that more layers behave like one.
- When the query's `replaceState` succeeds and the fragment's throws, the
  query stays cleaned, the fragment keeps its keys and one error is logged.
- single-shield's cleaner rewrites a clean fragment (`#section` becomes
  `#section=`) once anything was removed.

## Model

| member | source | states |
|---|---|---|
| Text.LowerChar | ultra-shield.js:80 | An ASCII capital moves down by 32; every other character stays; the result is never a capital |
| Text.LowerIsLowerCase | ultra-shield.js:80 | Lower-casing yields a lower-case string and is idempotent |
| Text.TrimStartMeaning | player-advanced.js:5 | `trim` at the front removes exactly the leading white space: a suffix of the input that is empty or starts with a non-space |
| Text.TrimEndMeaning | player-advanced.js:5 | `trim` at the back removes exactly the trailing white space: a prefix that is empty or ends with a non-space |
| Text.TrimIgnoresPadding | player-advanced.js:5 | White space added around a string does not change its trimmed form |
| Text.LowerTrimCommute | player-advanced.js:5 | Trimming and lower-casing can be done in either order |
| Js.Lookup | ultra-shield.js:81 | A key is found exactly when it is one of the object's keys, and the value found is stored under it |
| Js.PutMeaning | ultra-shield.js:136 | Assignment keeps the key list, or appends a new key at the end; the key then holds the new value and every other key is unchanged |
| Js.IndexEntriesMeaning | token.js:11 | A string's own keys are its indices, in decimal, each holding the one-character string at that index |
| Js.LowerKeysShape | ultra-shield.js:134-137 | The lower-cased copy of the headers has distinct keys, namely the lower-cased forms of the original names |
| Js.LowerKeysLastWins | ultra-shield.js:134-137 | Under a lower-cased name the copy holds the value of the last original name that lower-cases to it |
| Js.LowerKeysAreLowerCase | ultra-shield.js:134-137 | Every key of the lower-cased copy is in lower case |
| Js.LowerKeyed | ultra-shield.js:134-137 | The `forEach` that fills the copy builds exactly the lower-cased copy |
| Browser.Prefixed | ultra-shield.js:207 | A part is written with its `?` or `#` when non-empty and as nothing when empty |
| Browser.Page.ReplaceState | ultra-shield.js:209 | Each call takes the page's outcome for that call. When it throws, the message is returned and only the call count changes. Otherwise the address becomes the new one and the URL is recorded |
| SearchParams.Split | ultra-shield.js:196 | Splitting yields at least one segment, no segment holds the separator, and joining the segments with it gives the string back |
| SearchParams.SplitPair | ultra-shield.js:196 | A name has no `=`; a segment with `=` is name, `=`, value; a segment without one is a name with an empty value |
| SearchParams.EncodeMeaning | ultra-shield.js:204 | A name or value written by `toString` holds no `&`, `=` or `?`, and decoding it gives the original back |
| SearchParams.EncodePlain | ultra-shield.js:204 | Letters, digits and `*-._` are written as they are |
| SearchParams.ParseMarkedTwo | ultra-shield.js:219 | Inside the fragment text a `?` is an ordinary character of the name it starts |
| SearchParams.QuestionMarkEscaped | ultra-shield.js:230 | `toString` writes a `?` in a name as `%3F` |
| SearchParams.ParseEmpty | ultra-shield.js:196 | The empty search has no parameters |
| SearchParams.ParseLoneName | ultra-shield.js:219 | A bare name such as a plain anchor parses as one parameter, its decoded name with an empty value |
| SearchParams.SerialiseEmpty | ultra-shield.js:204 | `toString` is empty exactly when no parameter is left |
| SearchParams.Delete | ultra-shield.js:199 | After `delete(k)` exactly the parameters not named `k` remain, in their order: removing the one-name list |
| SearchParams.DeleteAbsent | ultra-shield.js:198-199 | Deleting a name that is not present changes nothing |
| SearchParams.HasAfterStrip | ultra-shield.js:198-199 | After removing the keys, `has(k)` holds exactly when `k` was present and is not a key |
| SearchParams.StripMeaning | ultra-shield.js:197-202 | Removal keeps exactly the parameters not named by a key, and is the identity exactly when none is |
| SearchParams.StripLeavesNoKey | ultra-shield.js:197-202 | After removal no parameter is named by a key |
| SearchParams.StripThenDelete | ultra-shield.js:197-202 | Deleting one more name after removing a list of names is removing the longer list, so the delete loop removes every listed name |
| SearchParams.DeleteKeys | ultra-shield.js:197-202 | The delete loop leaves the parameters minus those named by a key, and reports removal exactly when some parameter was named by one |
| SearchParams.ParseSegmentsOfSplit | ultra-shield.js:196-204 | Parameters written by `toString` and split again give back the same parameters |
| SearchParams.ParseSerialisedQuery | ultra-shield.js:204-207 | A query rebuilt as `?` plus `toString` parses back to the same parameters |
| SearchParams.ParseSerialised | ultra-shield.js:216-230 | A fragment rebuilt without a `?` parses back to the same parameters; a first name starting with `?` is written escaped, so nothing is dropped |
| UltraConfig.Merge | ultra-shield.js:53-63 | A falsy or non-object argument keeps the configuration. A supplied top-level field replaces the old one wholesale and an absent one is kept. The context switches are merged per name |
| UltraConfig.MergeKeepsEarlierSettings | ultra-shield.js:53-63 | A later merge that switches one context off keeps the mode set by an earlier merge and every other switch |
| UltraConfig.DefaultEnablesAll | ultra-shield.js:31-40 | Every context is switched on by default |
| UltraScan.AnyForbiddenMeaning | ultra-shield.js:76-84 | The incident flag set in the loop is true exactly when some key is forbidden |
| UltraScan.Scan | ultra-shield.js:68-77 | A value that is not an object comes back unchanged with no incident; an object gives an object of the same kind (array or not) |
| UltraScan.ScanAppend | ultra-shield.js:79-100 | The copy and the events of a key list are those of its parts, joined |
| UltraScan.ScanStep | ultra-shield.js:79-100 | One more key extends the incident, the copy and the events by that key's own |
| UltraScan.IncidentIffLowerCaseMatch | ultra-shield.js:73-84 | An incident is reported exactly when some key, lower-cased, equals some configured key, lower-cased |
| UltraScan.LengthMismatchAllowed | ultra-shield.js:83 | A key whose length no configured key has is never forbidden: the match is on whole names |
| UltraScan.DefaultKeysMatchWholeKeys | ultra-shield.js:73-83 | With the default keys, `tokenized` is not forbidden |
| UltraScan.DefaultKeysIgnoreCase | ultra-shield.js:73-83 | With the default keys, `Access_Token` is forbidden |
| UltraScan.SanitizeModeRedacts | ultra-shield.js:93-98 | Under `sanitize` the copy has every key in order, with the redaction value under forbidden keys and the original value under the others |
| UltraScan.OtherModesOmit | ultra-shield.js:93-98 | Under any other mode the copy is the input minus its forbidden entries, in order, and shorter by their number |
| UltraScan.OneEventPerForbiddenKey | ultra-shield.js:83-91 | Exactly one `forbidden_key` event per forbidden key, naming the original key; there are events exactly when there is an incident |
| UltraScan.NothingForbiddenCopiesAll | ultra-shield.js:97-99 | Without forbidden keys the copy equals the input |
| UltraScan.CleanInputPassesThrough | ultra-shield.js:68-102 | Input without forbidden keys comes back unchanged with no incident |
| UltraScan.RescanAfterOmitting | ultra-shield.js:93-98 | Under `reject` or `monitor`, scanning the copy again finds no incident and gives the copy back |
| UltraScan.RescanAfterRedacting | ultra-shield.js:93-98 | Under `sanitize` the copy is a fixed point of the scan, and it still reports an incident when the first scan did |
| UltraTransport.SomeIncluded | ultra-shield.js:271 | True exactly when some configured key is among the names |
| UltraTransport.Names | ultra-shield.js:259-260 | The names of the parameters, one per parameter, in order |
| UltraTransport.InspectUrlMeaning | ultra-shield.js:252-264 | A URL is flagged exactly when it resolves and some parameter is named by a configured key |
| UltraTransport.InspectBodyMeaning | ultra-shield.js:266-275 | A parsed object body is flagged exactly when some configured key equals one of its keys, lower-cased |
| UltraTransport.BodyMatchNeedsLowerCaseKey | ultra-shield.js:270-271 | A body can be flagged only if some configured key is written in lower case |
| UltraTransport.ShouldBlockMeaning | ultra-shield.js:277-302 | A call is blocked exactly when its URL or its string body names a configured key. A block logs one event, naming the URL when both do; no block logs nothing |
| UltraTransport.ModeDoesNotMatter | ultra-shield.js:277-302 | The decision does not depend on the mode: a flagged call is blocked under `monitor` too |
| UltraTransport.UrlKeysAreCaseSensitive | ultra-shield.js:258-260 | With the default keys, a URL carrying `Token` is not blocked |
| UltraTransport.BodyKeysAreLowered | ultra-shield.js:268-271 | With the default keys, a body `{"Access_Token": 1}` is blocked |
| UltraTransport.FetchLayers | ultra-shield.js:304-322 | However many times fetch was wrapped, it rejects exactly the blocked calls with the check's event, and otherwise reaches the original fetch |
| UltraTransport.XhrLayers | ultra-shield.js:346-359 | A wrapped send throws exactly when blocked, after logging the check's event and `blocked_before_send`; otherwise it reaches the original send |
| UltraTransport.XhrBeforeOpen | ultra-shield.js:333-348 | Before `open`, a send is refused exactly when its body names a configured key |
| UltraTransport.BeaconBody | ultra-shield.js:379-384 | A string body is inspected as it is; anything else is inspected as no body |
| UltraTransport.BeaconLayers | ultra-shield.js:367-392 | A wrapped sendBeacon returns false exactly when blocked, and otherwise what the original returns; non-string data never decides a block |
| UltraEnforce.RewriteKeepsOthers | ultra-shield.js:127-172 | Replacing one part of the request changes neither another part nor what is scanned for it |
| UltraEnforce.WalkRejectKeeps | ultra-shield.js:118-181 | Under `reject` the walk never modifies the request, and with no hit it calls `next` after logging every part's events |
| UltraEnforce.WalkRejectAt | ultra-shield.js:118-181 | Under `reject` the first part that hits gets 400 with its own code and message, after the events of the parts up to it |
| UltraEnforce.WalkUnderReject | ultra-shield.js:118-181 | The two facts above, for every first hit |
| UltraEnforce.WalkUnlessReject | ultra-shield.js:118-181 | Under any other mode the walk calls `next`, logs every part's events, and leaves each part as its own block decides |
| UltraEnforce.RejectPassesOnlyClean | ultra-shield.js:118-181 | Under `reject` the request is never modified and `next` is called exactly when no part hits |
| UltraEnforce.SomeHit | ultra-shield.js:118-174 | When some part hits, there is a first one in the order query, headers, body, cookies |
| UltraEnforce.RejectStopsAtFirstHit | ultra-shield.js:118-174 | The middleware under `reject` answers for the first hitting part in the fixed order, having logged only up to it |
| UltraEnforce.PassUnlessReject | ultra-shield.js:118-181 | Under `sanitize` or `monitor`, `next` is called and all four parts are logged in order. Headers are never rewritten. Under `sanitize`, query, body and cookies are replaced by their copy exactly when they hit |
| UltraEnforce.ForbiddenIgnoresLowering | ultra-shield.js:136 | A name is forbidden exactly when its lower-cased form is |
| UltraEnforce.LoweringKeepsForbidden | ultra-shield.js:133-138 | Copying header names lower-cased keeps exactly the same detections |
| UltraEnforce.HeaderHitIffForbiddenName | ultra-shield.js:133-144 | The headers hit exactly when their context is on and some original header name is forbidden |
| UltraEnforce.AbsentBodyAndCookiesPass | ultra-shield.js:148-174 | A falsy body is scanned as `{}` and falsy cookies are skipped: neither hits nor logs |
| UltraLocation.FragmentContent | ultra-shield.js:216-218 | A leading `#` is dropped and nothing else changes |
| UltraLocation.CleanedSearch | ultra-shield.js:195-211 | The query step performed with a delete loop yields what the query step specifies |
| UltraLocation.CleanedFragment | ultra-shield.js:215-236 | The fragment step performed with a delete loop yields what the fragment step specifies |
| UltraLocation.ReplaceStep | ultra-shield.js:203-210 | A step that rebuilt the address makes one `replaceState` call, which takes the page's next outcome; a step that did not makes none |
| UltraLocation.HardenPage | ultra-shield.js:188-237 | The address, the recorded URLs, the call count and the error events are those the specified hardening gives for the page's outcomes of its next two calls |
| UltraLocation.ReplacesOnlyDirtyParts | ultra-shield.js:188-247 | `replaceState` is called once per part that holds a key, and never otherwise. The path never changes. A clean or disabled part is kept as it was. Nothing is logged on success |
| UltraLocation.HardenedParts | ultra-shield.js:203-234 | A dirty query or fragment becomes its parameters minus the configured ones, written back with `?` or `#` |
| UltraLocation.QueryLeftClean | ultra-shield.js:195-211 | After hardening, the query holds no configured key. A dirty query parses to its old parameters minus those, and is empty exactly when none is kept |
| UltraLocation.FragmentLeftClean | ultra-shield.js:215-236 | A dirty fragment comes out empty exactly when nothing was kept. It reads back as exactly the kept parameters, in order, and holds no key |
| UltraLocation.RefusalLoggedOnce | ultra-shield.js:188-246 | At most one `error` event is logged and nothing is rethrown. When the first call throws, the address is kept and the event is logged if some part was dirty. When the query call succeeds and the fragment call throws, the query stays cleaned and recorded, and the event is logged if the fragment was dirty |
| UltraLocation.FragmentDropsFirst | ultra-shield.js:215-231 | A fragment of two plain parameters whose first name is a key is rewritten to `#` and the second parameter alone |
| UltraLocation.FragmentDropsMarked | ultra-shield.js:215-231 | The same when the kept name is a plain name marked with `?`: it is written back as `#%3F` followed by the name and its value |
| UltraLocation.HardenIsIdempotent | ultra-shield.js:188-237 | A second call on the address the first left removes nothing, calls `replaceState` no more and logs nothing |
| UltraLocation.KeysAreCaseSensitive | ultra-shield.js:197-198 | `?Token=abc` is left alone by the default keys |
| UltraLocation.QueryExample | ultra-shield.js:195-237 | `/?tab=1&token=abc#section` becomes `/?tab=1#section` with one `replaceState` |
| UltraLocation.FragmentExample | ultra-shield.js:215-236 | `/page#token=xyz&view=grid` becomes `/page#view=grid` with one `replaceState` |
| UltraLocation.MarkedNameEscaped | ultra-shield.js:215-236 | `#token=1&?jwt=2` becomes `#%3Fjwt=2`, which reads as the parameter `?jwt` again and is left alone by a second call |
| UltraShield.Request.Meta | ultra-shield.js:112-116 | The event metadata takes `ip`, else the connection's address, else null; the path, else the URL; and the verb |
| UltraShield.Firewall.constructor | ultra-shield.js:19-51 | The module starts with the default configuration, an empty log and no transport wrapped |
| UltraShield.Firewall.Configure | ultra-shield.js:53-63 | The configuration becomes the merge of the old one with the argument; nothing else changes |
| UltraShield.Firewall.ScanObject | ultra-shield.js:68-103 | The key loop returns the specified scan and appends exactly its events to the log |
| UltraShield.Firewall.Middleware | ultra-shield.js:111-182 | The verdict, the request parts left behind and the events logged are those the specified walk gives for the request's metadata |
| UltraShield.Firewall.CheckParts | ultra-shield.js:118-181 | The blocks for a list of parts, run in turn, give the specified walk |
| UltraShield.Firewall.CheckPart | ultra-shield.js:118-174 | One block logs the part's scan events, then answers or continues with the request as the specified block decides |
| UltraShield.Firewall.HardenLocation | ultra-shield.js:188-247 | The address, the recorded URLs, the call count and the log become those the specified hardening gives for the page's next two `replaceState` outcomes; with no page nothing happens |
| UltraShield.Firewall.ShouldBlockTransport | ultra-shield.js:277-302 | Returns the specified decision and logs its events |
| UltraShield.Firewall.PatchFetch | ultra-shield.js:304-309 | Adds one fetch layer when fetch exists and its context is on, with no marker preventing a second |
| UltraShield.Firewall.PatchXhr | ultra-shield.js:324-364 | The same for `XMLHttpRequest` |
| UltraShield.Firewall.PatchSendBeacon | ultra-shield.js:367-376 | The same for `sendBeacon` |
| UltraShield.Firewall.PatchTransports | ultra-shield.js:394-398 | Applies all three patches |
| UltraShield.Firewall.WrappedFetch | ultra-shield.js:311-321 | A fetch through every layer gives the specified outcome and events, and reaches the original fetch exactly when it delegates; the other transports' counters and the layer counts do not change |
| UltraShield.Firewall.FetchThrough | ultra-shield.js:311-321 | The same from inside any number of layers |
| UltraShield.Firewall.WrappedSendBeacon | ultra-shield.js:378-391 | A beacon through every layer gives the specified result and events, and reaches the original exactly when not blocked; the other transports' counters and the layer counts do not change |
| UltraShield.Firewall.BeaconThrough | ultra-shield.js:378-391 | The same from inside any number of layers |
| UltraShield.GuardedXhr.constructor | ultra-shield.js:331-338 | A new request sees the current number of layers and nothing opened |
| UltraShield.GuardedXhr.Open | ultra-shield.js:340-344 | `open` records the verb and the URL |
| UltraShield.GuardedXhr.Send | ultra-shield.js:346-359 | A send through every layer throws exactly when specified, logs the specified events, and reaches the original send exactly when it does not throw; the firewall's configuration and layer counts and the other transports' counters do not change |
| UltraShield.GuardedXhr.SendThrough | ultra-shield.js:346-359 | The same from inside any number of layers |
| SingleShield.RedactEntry | single-shield.js:30-44 | The key is kept; a forbidden key's value becomes the redaction and any other value is kept |
| SingleShield.Redacted | single-shield.js:29-45 | The copy has one entry per input entry, each redacted in place |
| SingleShield.Scan | single-shield.js:24-48 | A falsy value gives no incident and `null`; anything else gives a plain object |
| SingleShield.ScanObject | single-shield.js:24-48 | The loop returns the specified scan |
| SingleShield.ScanMeaning | single-shield.js:24-48 | The copy has exactly the input's keys in order, redacted under forbidden keys and unchanged elsewhere. The incident holds exactly when some key lower-cases to a listed one |
| SingleShield.RescanIsStable | single-shield.js:29-45 | Scanning the copy again gives the same copy and the same incident |
| SingleShield.Middleware | single-shield.js:53-86 | The three early-returning checks give the specified decision |
| SingleShield.DecideMeaning | single-shield.js:53-86 | Cookies never matter. The first of query, headers and body holding a forbidden key gets 400 with its code; otherwise the request goes on |
| SingleShield.HeaderHitIffForbiddenName | single-shield.js:66-68 | The lower-cased headers hit exactly when some original name is forbidden |
| SingleShield.CleanLocation | single-shield.js:91-123 | One `replaceState` with the cleaned address when anything was removed and none otherwise; a refusal of that call is swallowed and leaves the address |
| SingleShield.CleanDirtyMeaning | single-shield.js:94-119 | The address is rewritten exactly when the query or the fragment holds a listed name; the path and a clean query are kept |
| SingleShield.CleanQueryLeftClean | single-shield.js:96-102 | The cleaned query holds no listed name and a dirty one parses to the old parameters minus those |
| SingleShield.CleanFragmentLeftClean | single-shield.js:104-114 | A non-empty fragment comes out empty exactly when nothing was kept. What is kept holds no listed name and is exactly what the new fragment reads as |
| SingleShield.TokenAbcCleaned | single-shield.js:96-102 | `?token=abc` is dirty and cleans to no query at all |
| SingleShield.SectionRewritten | single-shield.js:105-114 | A clean `#section` is written back as `#section=` |
| SingleShield.AnchorGainsEquals | single-shield.js:91-119 | With a dirty query, `?token=abc#section` becomes `#section=` |
| SingleShield.FetchLayers | single-shield.js:128-160 | Wrapping fetch several times behaves as wrapping once |
| SingleShield.FetchMeaning | single-shield.js:132-159 | A wrapped fetch rejects with the URL message exactly when the URL names a listed key. It rejects with the body message exactly when only the body does, and delegates otherwise |
| SingleShield.BodyKeysAreExact | single-shield.js:147-156 | A body `{"Token": 1}` is let through, since body keys are compared exactly |
| TokenGuard.AnyLowered | token.js:11-13 | The `some` over the keys is true exactly when some key is suspicious in some letter case |
| TokenGuard.HasSuspiciousKey | token.js:10-14 | `null` throws; any other value is tested on its own keys, with `undefined` as `{}` |
| TokenGuard.Guarded | token.js:16-57 | The guard as written gives the specified outcome |
| TokenGuard.GuardMeaning | token.js:16-57 | It throws exactly on a null query or body. Otherwise it goes on exactly when no part holds a suspicious key, cookies counted only when truthy. A 400 lists exactly the offending parts, in visiting order |
| TokenGuard.HeadersHitIffOriginal | token.js:29-36 | The lower-cased copy of the headers is suspicious exactly when an original name is |
| TokenGuard.FlagsListParts | token.js:17-41 | The pushed names are distinct, in visiting order, one per flag set, and none when no flag is set |
| TokenGuard.ReportsEveryPart | token.js:16-53 | A suspicious query and suspicious cookies are both reported, without stopping at the first |
| Player.KindOf | player-advanced.js:7-21 | The type is one of the five the classifier knows |
| Player.DetectSource | player-advanced.js:4-22 | The source keeps the URL as given, untrimmed |
| Player.DetectRules | player-advanced.js:4-22 | Each type is chosen exactly when its rule is the first to match the trimmed, lower-cased URL |
| Player.DetectIgnoresPaddingAndCase | player-advanced.js:4-22 | Surrounding white space and ASCII case do not change the type |
| Player.NormalIgnoresPaddingAndCase | player-advanced.js:5 | The normal form ignores surrounding white space and ASCII case |
| Player.UpperPlaylist | player-advanced.js:5-8 | `A.M3U8` is an HLS playlist |
| Player.PaddedUpperPlaylist | player-advanced.js:4-9 | `" A.M3U8 "` is HLS and keeps its spaces in `src` |
| Player.FirstMatch | player-advanced.js:180-183 | The index found is the first entry that matches, or the length when none does |
| Player.FindLogoMeaning | player-advanced.js:175-186 | No logo for an empty title or a non-array list. Otherwise the first matching entry's logo, if it has one; none when nothing matches |
| Player.FindLogoIgnoresPaddingAndCase | player-advanced.js:175-186 | Titles that differ in padding or ASCII case find the same logo |
| Player.BlankTitleMatches | player-advanced.js:176-183 | A title of spaces is truthy and matches an entry whose title is blank |
| Player.Overlay.constructor | player-advanced.js:117-126 | The overlay starts hidden and not loaded, keeping the iframe's existing `data-src` and `src` |
| Player.Overlay.Open | player-advanced.js:128-138 | The first stored URL is never replaced, `src` is assigned at most once and only with it, and the overlay is shown |
| Player.Overlay.Close | player-advanced.js:140-143 | The overlay is hidden and nothing else changes |
| Player.OpenTwice | player-advanced.js:128-143 | Opening with two URLs, closing in between, loads the first one once and keeps it |

Lemmas without a row are proof steps or facts about the literal addresses in the
examples. Examples are TabTokenPairs, OnePair, StripTwo, SearchStripsOne,
FragmentStripsOne, QueryExampleSearch, FragmentExampleStep, MarkedFirstPass, MarkedReread,
MarkedJwtWritten, PlainNames, PlainPair, ParsePlainQuery and HardenBySteps. They state nothing
about the source beyond the rows that use them.

## Left out

- SearchParams.Encode, SearchParams.Decode: characters beyond ASCII are written as they are, not as percent-escaped UTF-8. `%XX` decodes to the character with that code, not to a UTF-8 byte. Malformed UTF-8 is not replaced by U+FFFD.
- The URL and JSON grammars: an outbound argument carries what `new URL` and `JSON.parse` produce, or that they throw.
- Resolving a URL against `window.location.origin` or `localhost`: the base only enters the recorded `href` in single-shield.
- Unicode case mapping and Unicode white space beyond the characters `trim` removes: lower-casing is ASCII only.
- `getConfig`: it returns a shallow copy, a reading operation with no contract worth stating.
- The logger function itself and all console output. Ultra Shield's events are kept as a log on the firewall. The console warnings of single-shield.js and token.js are not modelled.
- Inherited enumerable properties, `__proto__` and key-order rules for integer-like names: an object is its own keys in the order given.
- Non-integer numbers and NaN: numbers are integers, which is all any check looks at.
- `forbiddenKeys` that is not an array, and `String(k)` on non-string entries: the keys are strings.
- The `Blob` and `ArrayBuffer` checks of sendBeacon: every non-string body counts as no body.
- radio.js: a DOM click handler outside the firewall.
- Promises: a rejected fetch is the outcome `Refused` with its message.
- The overlay's event listeners, `style.display` and the creation of the overlay elements: `style.display` always agrees with `hidden`.
- `autoInit`, `autoInitFront`, `window.__ULTRA_SHIELD_CONFIG__` and the exports.
- `new URL(window.location.href)` throwing in single-shield's `cleanLocation`: a page address always parses.
- A null or undefined `input` to the wrapped fetch, whose `input.url` throws: fetch inputs are strings or objects.
- SingleShield.Fetch: installation is a count of wrappers on a value; there is no object holding `window.fetch` and no count of real calls.
- Player.FindLogo: an entry whose title is not a string, on which `trim` throws, is not modelled; entries are missing or carry string titles.
- Player.FindLogo: a non-string logo is not modelled; a logo is a string and an empty one is falsy.
