# amphtml analytics sessions, variable expansion, TCF ping and performance config — a Dafny model

This project models four small pieces of the AMP HTML runtime and its build tools, and proves
properties about them.

- **The amp-analytics session manager** (`SessionManagement`, `session_manager.dfy`).
  - Each vendor has one session, held in the cache `sessions_`. A session is
    `{sessionId, creationTimestamp, count, lastAccessTimestamp}`.
  - A session expires 30 minutes after its last access. An expired session is replaced by a
    new one whose count is one higher.
  - A cache hit refreshes the session and writes it to storage under `amp-session:<vendor>`.
  - A miss reads storage. When that read completes, the cache may meanwhile hold a live
    session; that session wins over the one built from storage.
  - `SessionManager` is a class with the cache as a `map` field. Storage writes and
    reported errors are logs. The clock (`Date.now()`) and the random source
    (`Math.random()`) are parameters.
- **The amp-analytics variable service** (`Variables`, `VariablesOracles`, `Macros`,
  `MacrosOracles`).
  - `getNameArgs` splits a key into a name and an argument list.
  - `encodeVars` percent-encodes scalars and arrays. `UriComponent` models
    `encodeURIComponent` and `decodeURIComponent` on UTF-8. `EncodingExamples` holds the
    encodings of the short texts the examples use.
  - `ExpansionOptions` and `expandTemplateSync` replace `${name}` references, recursively,
    up to a depth bound. Frozen names stay as they are, unknown names become empty, and the
    final value is encoded once.
  - The string macros are modelled: `IF`, `NOT`, `EQUALS`, `DEFAULT`, `TRIM`, `SUBSTR`,
    `TOLOWERCASE` and `TOUPPERCASE`.
  - Every documented example of these operations is proved as a lemma about the model,
    except the examples listed under "## Left out".
- **The amp-consent `__tcfapi` commands** (`TcfApiCommands`).
  - `isValidTcfApiCall` checks, in order, that the call is an object, that its command is
    supported, that it has no parameter, and that its version is 2. It reports the first
    failure.
  - The `ping` reply is the minimal PingReturn the tests document, with `cmpLoaded` and
    `gdprApplies` only, inside the `__tcfapiReturn` envelope.
- **The performance test configuration loader** (`LoadConfig`).
  - An optional `--url` replaces the URLs of `defaultHandler`.
  - The URLs of all handlers are then collected in handler order into `config.urls`.
  - A URL may not appear in two handlers, and the collected list may not be empty.
  - `Config` is a class. The collection is a loop, proved equal to a fold function, and the
    fold is proved equal to a reference definition: the concatenation, provided no URL
    repeats across handlers.

Shared helpers are in `Wrappers` (`Option`, `Result`) and `JsText` (`\s` white space, `join`,
`split`, number formatting).

## Model

| member | source | states |
|---|---|---|
| `SessionManagement.GenerateSessionId` | extensions/amp-analytics/0.1/session-manager.js:189-191 | the id is an integer from 0 to 9999 |
| `SessionManagement.StorageKey` | extensions/amp-analytics/0.1/session-manager.js:197-199 | the key is `amp-session:` followed by exactly the vendor |
| `SessionManagement.StorageKeyInjective` | extensions/amp-analytics/0.1/session-manager.js:197-199 | two vendors with the same storage key are the same vendor |
| `SessionManagement.IsSessionExpired` | extensions/amp-analytics/0.1/session-manager.js:181-183 | a session has expired exactly when it has a last access and has been idle for more than 30 minutes since |
| `SessionManagement.ExpiryBoundary` | extensions/amp-analytics/0.1/session-manager.js:181-183 | a session whose last access was at t is live at t + 30 minutes and expired 1 ms later |
| `SessionManagement.NeverExpiresWithoutAccess` | extensions/amp-analytics/0.1/session-manager.js:181-183 | a session with an undefined last access never expires |
| `SessionManagement.ExpiryIsMonotone` | extensions/amp-analytics/0.1/session-manager.js:181-183 | once expired, a session stays expired at every later time |
| `SessionManagement.ConstructSessionFromStoredValue` | extensions/amp-analytics/0.1/session-manager.js:205-217 | an error is reported exactly for a non-object value, which becomes a session with count 1, created now, with no last access; a stored record is taken field by field |
| `SessionManagement.UpdateSession` | extensions/amp-analytics/0.1/session-manager.js:145-159 | the updated session was last accessed now |
| `SessionManagement.UpdateExpired` | extensions/amp-analytics/0.1/session-manager.js:146-153 | an expired session is replaced by one with an id in 0..9999, created now, and a count one above the old count (1 if the old count was undefined) |
| `SessionManagement.UpdateLive` | extensions/amp-analytics/0.1/session-manager.js:154-158 | a live session keeps its id and creation time; a missing count becomes 1 and any other count stays; the last access becomes now |
| `SessionManagement.UpdatedIsLive` | extensions/amp-analytics/0.1/session-manager.js:145-159 | an updated session has a count and stays live for the next 30 minutes |
| `SessionManagement.UpdateKeepsCountPositive` | extensions/amp-analytics/0.1/session-manager.js:147-156 | an undefined or positive count is positive after an update |
| `SessionManagement.SessionFromStorage` | extensions/amp-analytics/0.1/session-manager.js:122-127 | the session built from a storage read was last accessed now |
| `SessionManagement.FreshFromStorage` | extensions/amp-analytics/0.1/session-manager.js:124-125 | with nothing usable in storage, the new session has count 1, an id in 0..9999, and was created and last accessed now |
| `SessionManagement.ReadValue` | extensions/amp-analytics/0.1/session-manager.js:80-84 | `session?.[value]` gives the field that `value` names: the id, the creation time, the last access (possibly undefined) or the count (possibly undefined) |
| `SessionManagement.UpdateSessionAsWritten` | extensions/amp-analytics/0.1/session-manager.js:146 | the update as written always throws |
| `SessionManagement.UpdateAsWrittenAlwaysThrows` | extensions/amp-analytics/0.1/session-manager.js:145-146 | the update as written never returns the intended updated session |
| `SessionManagement.SessionManager.constructor` | extensions/amp-analytics/0.1/session-manager.js:66-72 | the cache starts empty, with no writes and no errors |
| `SessionManagement.SessionManager.SetSession` | extensions/amp-analytics/0.1/session-manager.js:168-173 | one write of the session under `amp-session:<vendor>` is logged; the cache is unchanged |
| `SessionManagement.SessionManager.Get` | extensions/amp-analytics/0.1/session-manager.js:92-108 | without a vendor: an error is logged, the answer is `null`, and the cache and storage are unchanged; on a hit on a live session: the updated session is cached, written under the vendor's key and returned, and since the cache holds only counted sessions it differs from the cached one only in its last access, now; otherwise the answer waits for the read of the vendor's key and nothing changes |
| `SessionManagement.SessionManager.CompleteRead` | extensions/amp-analytics/0.1/session-manager.js:116-137 | the race guard: a live cached session is returned and nothing is cached or written; otherwise the session built from storage is cached, written and returned; an invalid stored value logs an error |
| `SessionManagement.SessionManager.GetSessionValue` | extensions/amp-analytics/0.1/session-manager.js:80-84 | the field of the session `get` yields (after the storage read when needed), and nothing without a vendor; the new state: without a vendor only the error is logged; on a live hit the updated session is cached and written; otherwise the session built from storage is cached and written, after the invalid-value error when the stored value is not an object |
| `Variables.NewExpansionOptions` | extensions/amp-analytics/0.1/test/test-variables.js:61-79 | the options hold the bindings and the no-encode flag, freeze no name, and allow 2 nested passes unless a depth is given |
| `Variables.FreezeVar` | extensions/amp-analytics/0.1/test/test-variables.js:129-140 | the name joins the frozen names; the bindings, the depth and the no-encode flag are unchanged |
| `Variables.GetVar` | extensions/amp-analytics/0.1/test/test-variables.js:96-98 | a bound name reads as its binding and an unbound one as the empty string |
| `Variables.Nested` | extensions/amp-analytics/0.1/test/test-variables.js:69-79 | a nested pass does not encode, keeps the bindings and the frozen names, and has one pass fewer, so the depth budget falls |
| `Variables.GetNameArgs` | extensions/amp-analytics/0.1/test/test-variables.js:472-490 | no contract of its own: `GetNameArgsSpec` states that name and argument list give the key back and that the cut is the last possible one |
| `Variables.LastCallSplit` | extensions/amp-analytics/0.1/test/test-variables.js:472-490 | a position found is a valid name/argument-list split at or below the limit |
| `Variables.LastCallSplitSpec` | extensions/amp-analytics/0.1/test/test-variables.js:472-490 | the split found is the last valid one, and none is found only when there is none |
| `Variables.GetNameArgsSpec` | extensions/amp-analytics/0.1/test/test-variables.js:472-490 | name and argument list put together give the key back; the argument list is non-empty exactly when the key is `name(args)`, and then the cut is the last possible one |
| `Variables.NameArgsOfCall` | extensions/amp-analytics/0.1/test/test-variables.js:486-489 | a white-space-free name followed by `(args)` splits into the name and `(args)` |
| `Variables.NameArgsAfterWhitespace` | extensions/amp-analytics/0.1/test/test-variables.js:480-484 | a key with white space before its first `(` is all name |
| `Variables.NameArgsWithoutClose` | extensions/amp-analytics/0.1/test/test-variables.js:479-483 | a key not ending in `)` is all name |
| `Variables.NameArgsDoubleClose` | extensions/amp-analytics/0.1/test/test-variables.js:104-112 | a key ending in `))` is all name |
| `VariablesOracles.NameArgsWholeName` | extensions/amp-analytics/0.1/test/test-variables.js:479-483 | `abc`, `client id` and `client id\nand something` are all name |
| `VariablesOracles.NameArgsSpacedCall` | extensions/amp-analytics/0.1/test/test-variables.js:481-484 | `client id()`, `client id (abc)` and `client id\nclientId()` are all name |
| `VariablesOracles.NameArgsCalls` | extensions/amp-analytics/0.1/test/test-variables.js:486-489 | `clientId()`, `clientId(abc)`, `clientId(abc,def)` and `clientId(abc, def)` split at the `(` |
| `Variables.EncodeScalar` | extensions/amp-analytics/0.1/test/test-variables.js:39-42 | no contract of its own: a scalar that is not a call is stated by `EncodeScalarPlain`, a call by `EncodeScalarKeepsCall` |
| `Variables.EncodeVars` | extensions/amp-analytics/0.1/test/test-variables.js:39-50 | a string that is not a call decodes back to itself, and an empty array encodes to nothing |
| `Variables.EncodeEachSpec` | extensions/amp-analytics/0.1/test/test-variables.js:44-50 | each element is encoded on its own, in order, and the input array is a value that is not changed |
| `Variables.EncodeScalarPlain` | extensions/amp-analytics/0.1/test/test-variables.js:39-41 | a scalar that is not a call is percent-encoded as a whole and decodes back to itself, with no plain comma |
| `Variables.EncodeScalarKeepsCall` | extensions/amp-analytics/0.1/test/test-variables.js:42 | a call whose name is unreserved text is emitted unchanged |
| `Variables.EncodeArraySeparates` | extensions/amp-analytics/0.1/test/test-variables.js:44-50 | splitting an encoded array of non-calls at its commas gives one piece per element, each decoding to that element |
| `VariablesOracles.EncodeVarsScalar` | extensions/amp-analytics/0.1/test/test-variables.js:41 | `abc %&` encodes to `abc%20%25%26` |
| `VariablesOracles.EncodeVarsMacro` | extensions/amp-analytics/0.1/test/test-variables.js:42 | `SOME_MACRO(abc,123)` is kept |
| `VariablesOracles.EncodeVarsArray` | extensions/amp-analytics/0.1/test/test-variables.js:44-47 | `['abc %&', 'a b']` encodes to `abc%20%25%26,a%20b` |
| `VariablesOracles.EncodeVarsMixedArray` | extensions/amp-analytics/0.1/test/test-variables.js:48-50 | `['12.3', 'SOME_MACRO(abc,123)', 'ab/c']` encodes to `12.3,SOME_MACRO(abc,123),ab%2Fc` |
| `UriComponent.EncodeURIComponent` | extensions/amp-analytics/0.1/test/test-variables.js:39-42 | no contract of its own: `DecodeEncode`, `EncodedIsSafe`, `EncodeUnreservedIsIdentity`, `EncodeConcat` and `EncodedHasNoComma` state it |
| `UriComponent.DecodeURIComponent` | extensions/amp-analytics/0.1/test/test-variables.js:69-79 | a decoded text is never longer than the text decoded |
| `UriComponent.DecodeEncode` | extensions/amp-analytics/0.1/test/test-variables.js:69-79 | `decodeURIComponent` undoes `encodeURIComponent` on every string |
| `UriComponent.EncodedIsSafe` | extensions/amp-analytics/0.1/test/test-variables.js:39-41 | the encoding holds only unreserved characters, `%` and hex digits |
| `UriComponent.EncodeUnreservedIsIdentity` | extensions/amp-analytics/0.1/test/test-variables.js:42 | unreserved text is not changed by encoding |
| `UriComponent.EncodeConcat` | extensions/amp-analytics/0.1/test/test-variables.js:44-50 | encoding works character by character over a concatenation |
| `UriComponent.EncodedHasNoComma` | extensions/amp-analytics/0.1/test/test-variables.js:44-50 | an encoding contains no plain comma |
| `Variables.FindOpenSpec` | extensions/amp-analytics/0.1/test/test-variables.js:54-188 | the `${` found is the first one from the start position, and none is found only when there is none |
| `Variables.FindCloseSpec` | extensions/amp-analytics/0.1/test/test-variables.js:54-188 | the `}` found is the first one from the start position, and none is found only when there is none |
| `Variables.NextReference` | extensions/amp-analytics/0.1/test/test-variables.js:54-188 | a reference found starts with `${` and closes with a `}` inside the template |
| `Variables.ExpandWithoutReferences` | extensions/amp-analytics/0.1/test/test-variables.js:100-102 | a template without `${` is returned unchanged |
| `Variables.ExpandTemplateSync` | extensions/amp-analytics/0.1/test/test-variables.js:162-186 | once the depth budget is spent, the template comes back verbatim, references included |
| `Variables.ExpandStep` | extensions/amp-analytics/0.1/test/test-variables.js:54-188 | text before the first reference is kept, the reference is replaced, and the rest is expanded with the same options |
| `Variables.ExpandBoundString` | extensions/amp-analytics/0.1/test/test-variables.js:69-79 | unfolding equation: a bound string is expanded one level down without encoding, then rendered with the argument list |
| `Variables.ExpandBoundOther` | extensions/amp-analytics/0.1/test/test-variables.js:92-94 | unfolding equation: a bound number or array is rendered as it is, with the argument list |
| `Variables.Render` | extensions/amp-analytics/0.1/test/test-variables.js:92-126 | an empty string gives nothing, its argument list dropped; any other non-empty result ends with the key's argument list, except a zero under no-encode |
| `Variables.RenderPlainString` | extensions/amp-analytics/0.1/test/test-variables.js:69-79 | a non-empty non-call string renders as itself without encoding, or percent-encoded |
| `Variables.ExpandVariable` | extensions/amp-analytics/0.1/test/test-variables.js:96-160 | a frozen name, or any name once the budget is spent, stays as `${key}`; an empty key, and a name neither bound nor frozen, give the empty string |
| `Variables.EncodeOnce` | extensions/amp-analytics/0.1/test/test-variables.js:69-79 | the encoded replacement decodes to exactly the replacement made without encoding |
| `VariablesOracles.ExpandChainEncoded` | extensions/amp-analytics/0.1/test/test-variables.js:69-71 | `${a}` through `a`, `b` and `c` gives the URL, encoded once |
| `VariablesOracles.ExpandChainRaw` | extensions/amp-analytics/0.1/test/test-variables.js:73-79 | with `noEncode` the URL is emitted as it is |
| `VariablesOracles.ExpandComplicated` | extensions/amp-analytics/0.1/test/test-variables.js:81-90 | four references inside a binding expand to `HELLO%2FWORLD%2BWORLD%2BHELLO%2BHELLO` |
| `VariablesOracles.ExpandZero` | extensions/amp-analytics/0.1/test/test-variables.js:92-94 | the number 0 is emitted as `0` |
| `VariablesOracles.ExpandDropsUnknown` | extensions/amp-analytics/0.1/test/test-variables.js:96-98 | `a=${known}&b=${unknown}` gives `a=KNOWN&b=` |
| `VariablesOracles.ExpandLeavesMacros` | extensions/amp-analytics/0.1/test/test-variables.js:100-102 | `MACRO(a,b)` outside a reference is kept |
| `VariablesOracles.ExpandNestedCall` | extensions/amp-analytics/0.1/test/test-variables.js:105-107 | `AAA(BBB(1))` is kept |
| `VariablesOracles.ExpandNestedCallWithComma` | extensions/amp-analytics/0.1/test/test-variables.js:109-112 | `AAA(BBB(1,2))` becomes `AAA(BBB(1%2C2))` |
| `VariablesOracles.ExpandCallArguments` | extensions/amp-analytics/0.1/test/test-variables.js:114-117 | `${foo}&${bar(3,4)}` gives `FOO(1,2)&BAR(3,4)`: the argument list follows the value |
| `VariablesOracles.ExpandPassedArguments` | extensions/amp-analytics/0.1/test/test-variables.js:119-126 | `${all}` gives `AAA(1%2C2)%26BBB(3%2C4)%26CCC(5%2C6)%26DDD(7,8)` |
| `VariablesOracles.ExpandRespectsFreeze` | extensions/amp-analytics/0.1/test/test-variables.js:129-140 | `${fooParam(foo,bar)}${nonfreeze}${freeze}` gives `QUERY_PARAM(foo,bar)${freeze}` |
| `VariablesOracles.ExpandArrayVars` | extensions/amp-analytics/0.1/test/test-variables.js:142-156 | an array binding is encoded element by element, with calls kept and `${foo}` not expanded |
| `VariablesOracles.ExpandEmptyName` | extensions/amp-analytics/0.1/test/test-variables.js:158-160 | `${}` gives the empty string |
| `VariablesOracles.ExpandRecursiveDefault` | extensions/amp-analytics/0.1/test/test-variables.js:170-175 | the cyclic bindings stop at the default depth 2 with `123%24%7B4%7D` |
| `VariablesOracles.ExpandRecursiveFive` | extensions/amp-analytics/0.1/test/test-variables.js:177-186 | at depth 5 they stop with `123412%24%7B3%7D` |
| `Macros.If` | extensions/amp-analytics/0.1/test/test-variables.js:281-297 | the result is one of the two branches, and (for distinct branches) the first exactly when the condition is not empty, `false`, `null` or `undefined` |
| `Macros.Not` | extensions/amp-analytics/0.1/test/test-variables.js:273-275 | the result is `true` or `false`, and `true` exactly for the empty string |
| `Macros.Equals` | extensions/amp-analytics/0.1/test/test-variables.js:299-305 | the result is `true` or `false`, and `true` exactly when the arguments are equal |
| `Macros.Default` | extensions/amp-analytics/0.1/test/test-variables.js:248-251 | the result is the value or the fallback, and the fallback exactly when the value is empty |
| `Macros.IfOfNot` | extensions/amp-analytics/0.1/test/test-variables.js:273-297 | branching on `NOT(c)` swaps the branches exactly when `c` is not `false`, `null` or `undefined` |
| `Macros.NotNot` | extensions/amp-analytics/0.1/test/test-variables.js:273-275 | `NOT` of a `NOT` result is always `false` |
| `Macros.IfEquals` | extensions/amp-analytics/0.1/test/test-variables.js:307-313 | branching on `EQUALS(a, b)` picks the first branch exactly when `a == b` |
| `Macros.EqualsSymmetric` | extensions/amp-analytics/0.1/test/test-variables.js:299-305 | `EQUALS` is symmetric |
| `Macros.DefaultIdempotent` | extensions/amp-analytics/0.1/test/test-variables.js:248-251 | a second `DEFAULT` with the same fallback changes nothing |
| `Macros.TrimStart` | extensions/amp-analytics/0.1/test/test-variables.js:264 | the result is no longer than the input |
| `Macros.TrimEnd` | extensions/amp-analytics/0.1/test/test-variables.js:264 | the result is no longer than the input |
| `Macros.Trim` | extensions/amp-analytics/0.1/test/test-variables.js:264 | the result is no longer than the input |
| `Macros.TrimStartSpec` | extensions/amp-analytics/0.1/test/test-variables.js:264 | exactly the leading run of white space is removed |
| `Macros.TrimEndSpec` | extensions/amp-analytics/0.1/test/test-variables.js:264 | exactly the trailing run of white space is removed |
| `Macros.TrimSpec` | extensions/amp-analytics/0.1/test/test-variables.js:264 | the input is leading space, the result and trailing space, and the result neither starts nor ends with white space |
| `Macros.TrimEndDropsSpace` | extensions/amp-analytics/0.1/test/test-variables.js:264 | trailing white space after a text not ending in white space is all that is removed |
| `Macros.TrimmedIsFixed` | extensions/amp-analytics/0.1/test/test-variables.js:264 | a text without white space at either end is unchanged |
| `Macros.TrimIdempotent` | extensions/amp-analytics/0.1/test/test-variables.js:264 | trimming twice is trimming once |
| `Macros.Substr` | extensions/amp-analytics/0.1/test/test-variables.js:259-262 | the result is no longer than the input or the requested length |
| `Macros.SubstrSuffix` | extensions/amp-analytics/0.1/test/test-variables.js:315-316 | without a length, `SUBSTR` from an index is the suffix from there |
| `Macros.SubstrFromEnd` | extensions/amp-analytics/0.1/test/test-variables.js:315-317 | a negative start `-k` takes the last `k` characters |
| `Macros.SubstrSplit` | extensions/amp-analytics/0.1/test/test-variables.js:259-262 | a piece of length n followed by the rest from start + n is the rest from start |
| `Macros.ToLower` | extensions/amp-analytics/0.1/test/test-variables.js:266-267 | lower-casing keeps the length |
| `Macros.ToUpper` | extensions/amp-analytics/0.1/test/test-variables.js:269-271 | upper-casing keeps the length |
| `Macros.ToLowerSpec` | extensions/amp-analytics/0.1/test/test-variables.js:266-267 | lower-casing maps each character on its own and keeps the length |
| `Macros.ToUpperSpec` | extensions/amp-analytics/0.1/test/test-variables.js:269-271 | upper-casing maps each character on its own and keeps the length |
| `Macros.CaseRoundTrip` | extensions/amp-analytics/0.1/test/test-variables.js:266-271 | lower-casing after upper-casing is lower-casing, and lower-casing is idempotent |
| `Macros.ToLowerIgnoresCase` | extensions/amp-analytics/0.1/test/test-variables.js:266-267 | texts that differ only in letter case lower-case to the same text |
| `MacrosOracles.DefaultWithoutFirst` | extensions/amp-analytics/0.1/test/test-variables.js:248-251 | `DEFAULT(,two)` and `DEFAULT(TRIM(), two)` give `two` |
| `MacrosOracles.SubstrHello` | extensions/amp-analytics/0.1/test/test-variables.js:259 | `SUBSTR(Hello world!, 1, 4)` gives `ello` |
| `MacrosOracles.SubstrNumber` | extensions/amp-analytics/0.1/test/test-variables.js:261-262 | `SUBSTR` of the number 123456 from 2 for 5 gives `3456` |
| `MacrosOracles.TrimHello` | extensions/amp-analytics/0.1/test/test-variables.js:264 | `TRIM(hello      )` gives `hello` |
| `MacrosOracles.LowerCaseEncoded` | extensions/amp-analytics/0.1/test/test-variables.js:266-267 | `TOLOWERCASE(HeLLO WOrld!)` gives `hello%20world!` once encoded |
| `MacrosOracles.UpperCaseEncoded` | extensions/amp-analytics/0.1/test/test-variables.js:269-271 | `TOUPPERCASE(HeLLO WOrld!)` gives `HELLO%20WORLD!` once encoded |
| `MacrosOracles.NotExamples` | extensions/amp-analytics/0.1/test/test-variables.js:273-275 | `NOT(hello)` is `false` and `NOT()` is `true` |
| `MacrosOracles.IfExamples` | extensions/amp-analytics/0.1/test/test-variables.js:281-297 | `IF` on `true`, `test`, `false`, empty, `null` and `undefined` |
| `MacrosOracles.EqualsExamples` | extensions/amp-analytics/0.1/test/test-variables.js:299-313 | `EQUALS` on equal and different values, and inside `IF` |
| `MacrosOracles.ChainingExamples` | extensions/amp-analytics/0.1/test/test-variables.js:315-317 | `SUBSTR(Hello world!, 6)` gives `world!`, and `WORLD!` once upper-cased |
| `TcfApiCommands.Field` | extensions/amp-consent/0.1/test/test-tcf-api-commands.js:54-92 | a property of anything but an object reads as `undefined` |
| `TcfApiCommands.IsValidTcfApiCall` | extensions/amp-consent/0.1/test/test-tcf-api-commands.js:50-93 | the call is valid exactly when no error is reported |
| `TcfApiCommands.WellFormed` | extensions/amp-consent/0.1/test/test-tcf-api-commands.js:50-93 | a well-formed call is an object whose command is `ping` and whose version is 2 |
| `TcfApiCommands.ValidIffWellFormed` | extensions/amp-consent/0.1/test/test-tcf-api-commands.js:50-93 | a call is accepted exactly when it is an object with a supported command, no truthy parameter and version 2 |
| `TcfApiCommands.NotAnObjectFirst` | extensions/amp-consent/0.1/test/test-tcf-api-commands.js:54-59 | anything but an object is rejected with `"tcfapiCall" is not an object: ` and its text |
| `TcfApiCommands.CommandBeforeParameterAndVersion` | extensions/amp-consent/0.1/test/test-tcf-api-commands.js:62-69 | an unsupported command is reported whatever the parameter and version are |
| `TcfApiCommands.ParameterBeforeVersion` | extensions/amp-consent/0.1/test/test-tcf-api-commands.js:72-78 | a parameter is reported whatever the version is |
| `TcfApiCommands.RejectsNonObject` | extensions/amp-consent/0.1/test/test-tcf-api-commands.js:54-59 | `'bad'` is rejected as not an object |
| `TcfApiCommands.RejectsUnsupportedCommand` | extensions/amp-consent/0.1/test/test-tcf-api-commands.js:62-69 | command `bad` is rejected as unsupported |
| `TcfApiCommands.RejectsParameter` | extensions/amp-consent/0.1/test/test-tcf-api-commands.js:72-78 | `ping` with parameter `[1, 2, 3]` is rejected, reporting `1,2,3` |
| `TcfApiCommands.RejectsVersionOne` | extensions/amp-consent/0.1/test/test-tcf-api-commands.js:81-87 | version 1 is rejected, reporting `1` |
| `TcfApiCommands.AcceptsPingVersionTwo` | extensions/amp-consent/0.1/test/test-tcf-api-commands.js:90-92 | `ping` without a parameter at version 2 is valid, with no error |
| `TcfApiCommands.PingReturn` | extensions/amp-consent/0.1/test/test-tcf-api-commands.js:109-120 | the reply echoes the caller's `callId`, has `cmpLoaded` true and the metadata's `gdprApplies`, and no `success` |
| `TcfApiCommands.HandleTcfCommand` | extensions/amp-consent/0.1/test/test-tcf-api-commands.js:96-120 | a reply is given exactly for `ping`, and it echoes the caller's `callId` |
| `TcfApiCommands.PingReplyExample` | extensions/amp-consent/0.1/test/test-tcf-api-commands.js:97-120 | the reply to the documented ping, in full |
| `LoadConfig.CollectFrom` | build-system/tasks/performance/load-config.js:34-41 | a successful fold extends the list collected so far, and its only failure is `All urls must be unique` |
| `LoadConfig.Concat` | build-system/tasks/performance/load-config.js:34-41 | the first handler's list starts the concatenation |
| `LoadConfig.CollectUrls` | build-system/tasks/performance/load-config.js:34-44 | a success holds at least one URL, and a failure is one of the two documented errors |
| `LoadConfig.ConcatSnoc` | build-system/tasks/performance/load-config.js:34-41 | collecting one more handler appends its list |
| `LoadConfig.InConcat` | build-system/tasks/performance/load-config.js:34-41 | a URL is collected exactly when some handler lists it |
| `LoadConfig.CollectFromSpec` | build-system/tasks/performance/load-config.js:34-41 | the fold fails with `All urls must be unique` exactly when a handler lists a URL an earlier handler listed, and otherwise gives the concatenation |
| `LoadConfig.CollectUrlsSpec` | build-system/tasks/performance/load-config.js:34-44 | the result is the concatenation in handler order; or `All urls must be unique` on a repeat across handlers; or `No URLs found in config.` when it is empty |
| `LoadConfig.DuplicatesWithinOneHandler` | build-system/tasks/performance/load-config.js:35-40 | a URL listed twice by one handler is accepted |
| `LoadConfig.DuplicatesAcrossHandlers` | build-system/tasks/performance/load-config.js:35-39 | a URL in two handlers is rejected |
| `LoadConfig.Config.constructor` | build-system/tasks/performance/load-config.js:27-29 | the configuration holds the parsed handlers, and no `urls` yet |
| `LoadConfig.Config.Collect` | build-system/tasks/performance/load-config.js:34-41 | the loop over the handlers with its `forEach` check returns exactly what the fold returns |
| `LoadConfig.Config.Load` | build-system/tasks/performance/load-config.js:30-45 | a `--url` makes `defaultHandler`'s list exactly `[url]` (an error without that handler); `urls` is collected when no URL repeats; the result is as `CollectUrls` says |
| `LoadConfig.OverrideTouchesOnlyDefault` | build-system/tasks/performance/load-config.js:30-32 | the override leaves every other handler's list unchanged |

## Left out

- `extensions/amp-analytics/0.1/variables.js` (the variable service) is not part of this
  model. `Variables` and `Macros` are reconstructed from the behaviour that
  `test-variables.js` documents. Where a documented result is marked as not intended (the
  `TODO` comments at lines 109 and 119), the model follows the documented result.
- `extensions/amp-consent/0.1/tcf-api-commands.js` is not part of this model either.
  `TcfApiCommands` is reconstructed from `test-tcf-api-commands.js`. Of `handleTcfCommand`,
  only the `ping` reply is modelled; the other commands get no reply in the model.
- The `ping` reply holds only `cmpLoaded` and `gdprApplies`. The other PingReturn fields of
  the IAB Transparency and Consent Framework v2 CMP API (`cmpStatus`, `displayStatus`,
  `apiVersion`, `cmpVersion`, `cmpId`, `gvlVersion`, `tcfPolicyVersion`) are not modelled,
  and `success` is sent as `undefined`.
- The reply is returned as a value rather than posted with `postMessage`. The consent
  metadata is given, not fetched through the policy manager.
- The session manager's promises and storage service are not modelled.
  - `get` answers `Pending(key)` when it would wait for storage.
  - `SessionManager.CompleteRead` is the continuation that runs when the read returns.
  - `SessionManager.GetSessionValue` runs the two with nothing in between.
  - Other interleavings are expressed by calling `Get` and `CompleteRead` in another order.
  - Writes go to a log instead of the storage service.
  - `Date.now()` and `Math.random()` are parameters.
- Session records are values, so the in-place updates `session.count = 1` and
  `session.lastAccessTimestamp = Date.now()` do not model aliasing. The cache gets the
  updated record, as the source's reassignment gives it.
- A stored record whose `sessionId` or `creationTimestamp` is missing is not modelled; those
  fields are integers. The count and the last access may be missing (`Option`).
- Service registration (`sessionServicePromiseForDoc`, `installSessionServiceForTesting`)
  is not modelled.
- Not modelled, and why:
  - `HASH` (SHA-384) and `BASE64`, and so their examples (test lines 253-257, 277-279 and
    318-327): they call crypto and encoding code outside the model.
  - The regular-expression semantics of `REPLACE` and `MATCH`, and so their examples (test
    lines 234-237, 330-360 and 415-470): they need a regular expression engine.
  - `COOKIE`, `LINKER_PARAM`, `VIDEO_STATE`, `QUERY_PARAM` and `TIMESTAMP`: they read the
    page, its location, cookies and timers.
  - The asynchronous `expandUrlAsync` path that parses `$MACRO(...)` calls in URLs.
  - The macros' argument parsing. The macros are functions of their already-parsed
    arguments. `SUBSTR`'s numeric arguments are integers, not strings that are parsed.
  - The examples with `QUERY_PARAM` and `TIMESTAMP` (test lines 219-232 and 239-246), and
    those of `COOKIE` and `LINKER_PARAM` (test lines 361-414).
- The console error logged when the depth bound is reached (test lines 171-173) is not
  modelled; `ExpandTemplateSync` states what the expansion returns then.
- `TOLOWERCASE` and `TOUPPERCASE` map only the ASCII letters. Unicode case mapping is not
  modelled.
- Numbers bound as variables are integers. Floating-point formatting is not modelled.
- Strings are sequences of Unicode scalar values, whereas JavaScript strings are sequences
  of UTF-16 code units.
  - A lone surrogate, on which `encodeURIComponent` throws `URIError`, cannot be written in
    the model.
  - `SUBSTR`, `TRIM` and string lengths count characters, not code units. For
    `SUBSTR("😀a", 1)` JavaScript gives the low surrogate followed by `a`; the model gives `a`.
- `SUPPORTED_COMMANDS` holds only `ping`, the one command documented as valid (test lines
  62-92). So `ValidIffWellFormed` rejects every other TCF v2 command, such as `getTCData`
  and `addEventListener`. The set that `isValidTcfApiCall` accepts in the source is not
  part of this model.
- Each session operation reads the clock once: `now` is one parameter. The source calls
  `Date.now()` separately at lines 125 (twice), 151, 157, 182 and 208 of `session-manager.js`, so
  readings that differ within one operation are not modelled.
- The comment at lines 48-52 of `session-manager.js` says `lastAccessTimestamp` is not
  stored. `setSession_` (lines 168-173) stores the whole session, including it. The model
  follows the code: `SessionManager.SetSession` logs the whole session.
- Reading `config.json`, `JSON.parse` and `minimist` are not modelled. The parsed handlers,
  in key order, and the `--url` value are inputs.
  - Every handler is assumed to have a `urls` array.
  - The JavaScript ordering of integer-like keys first is not modelled; the key order is
    given.
  - A `--url` with no `defaultHandler` fails with an error in the model, where JavaScript
    throws a `TypeError` while assigning.
  - The other fields (`concurrency`, `headless`, `runs`) are not touched and not modelled.
- `SessionManagement.UpdateSession`: its own contract states only the last access. What it
  does to the id, creation time and count is stated by `UpdateExpired`, `UpdateLive`,
  `UpdatedIsLive` and `UpdateKeepsCountPositive`.
- `Variables.GetNameArgs`: no contract of its own, because one on the cut makes the proofs
  of the literal examples too costly. `GetNameArgsSpec` states the cut and that it is the
  last possible one.
- `Variables.EncodeScalar`: no contract of its own, because one on the encoded text makes
  the proofs of the literal examples too costly. `EncodeScalarPlain` and
  `EncodeScalarKeepsCall` state it.
- `UriComponent.EncodeURIComponent`: no contract of its own, for the same reason. The lemmas
  named in its row state it.
- `UriComponent.DecodeURIComponent`: its own contract bounds only the length. The round
  trip is stated by `DecodeEncode`.
- `Variables.EncodeVars`: its own contract covers plain strings and the empty array. Arrays
  are stated by `EncodeEachSpec` and `EncodeArraySeparates`.
- `Variables.ExpandTemplateSync`: its own contract covers the spent budget. A step of the
  expansion is stated by `ExpandStep` and `ExpandWithoutReferences`.
- `Variables.ExpandVariable`: its own contract covers frozen, empty, unknown and
  out-of-budget keys. For bound values, `ExpandBoundString` and `ExpandBoundOther` are only
  unfolding equations. What a bound value expands to is stated by `EncodeOnce` and by the
  lemmas for the documented examples.
- `Variables.Render`: its own contract covers the empty value and where the argument list
  goes. Plain strings are stated by `RenderPlainString`.
- `Macros.TrimStart`: its own contract bounds only the length. Its content is stated by
  `TrimStartSpec`.
- `Macros.TrimEnd`: its own contract bounds only the length. Its content is stated by
  `TrimEndSpec`.
- `Macros.Trim`: its own contract bounds only the length. Its content is stated by
  `TrimSpec` and `TrimIdempotent`.
- `Macros.ToLower`: its own contract states only the length. Each character is stated by
  `ToLowerSpec`.
- `Macros.ToUpper`: its own contract states only the length. Each character is stated by
  `ToUpperSpec`.
- `LoadConfig.CollectFrom`: its own contract states the prefix and the error. The result is
  stated by `CollectFromSpec`.
- `LoadConfig.Concat`: its own contract states only that the first list comes first. Which
  URLs it holds is stated by `InConcat` and `ConcatSnoc`.
- `LoadConfig.CollectUrls`: its own contract states the non-empty result and the errors.
  Which error is returned, and the result, are stated by `CollectUrlsSpec`.
- `Macros.Substr`: its own contract bounds only the length. Its content is stated by
  `SubstrSuffix`, `SubstrFromEnd`, `SubstrSplit` and the documented examples.

## Findings

| source | as written | input that shows it | evidently intended | confidence | as-written member | corrected member |
|---|---|---|---|---|---|---|
| extensions/amp-analytics/0.1/session-manager.js:146 | `updateSession_` calls `this.isSessionExpired_`, which `SessionManager` does not define (only the module function `isSessionExpired` at line 181 exists), so every call throws a `TypeError` | any session, e.g. the cache hit of `get('vendor')` on a live cached session (line 102) or any truthy stored value (line 126) | call the module-level `isSessionExpired(session)`, then reset or refresh the session | high, not executed | `SessionManagement.UpdateAsWrittenAlwaysThrows` | `SessionManagement.UpdateSession` |
