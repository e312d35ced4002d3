# interpolate-json in Dafny

A model of the interpolation engine of `interpolate-json`, with proofs about it.
The engine replaces placeholders such as `${key}` or `${sub.key}` in a string, or
in the serialised text of a JSON object, with values. The values come from a map
the caller gives, or from the object itself. In the object case, a value that
holds placeholders of its own is resolved first, recursively.

The files follow the source:

- `strings.dfy` (`Strings`): the JavaScript string primitives the engine uses.
  These are `trim`, `indexOf`, `split`, `join`, `replace` with a string pattern
  (with its `$` substitution patterns), and the decimal text of a number.
- `escaping.dfy` (`RegexSource`): escaping a character class with backslashes,
  and what the escaped text matches when it is read as a regex source.
- `placeholders.dfy` (`Placeholders`): the one regex shape the library builds,
  `open \s* \w+ (?:sep \w+)* \s* close` with a capture group. The matcher for it
  is written by hand and backtracks the way ECMAScript does. On top of it sit
  the global `test`, `match` and `replace` with a callback.
- `documents.dfy` (`Documents`): JSON values, `String(v)`, `toString`, and
  `traverse`.
- `setoperations.dfy` (`SetOperations`): `union` and `subtract`. An
  insertion-ordered `Set` is a sequence without duplicates.
- `regexp_extensions.dfy` (`RegexExtensions`): `RegexEscaped`, and a class for a
  global `RegExp` object with its `lastIndex` field. The class has `test`,
  `nonStickyTest`, `match` and `replace`, and there is `FixRegexStickyTest`.
- `interpolation.dfy` (`Interpolation`): `escapeRegex` and the four regex
  builders, as the delimiters they match. Also `getMatchSet`,
  `getInterpolated` / `getInterpolatedFunc`, and the three escape clean-ups.
- `expansion.dfy` (`Expansion`): `flattenAndResolve`.
  - It is defined as a function over an abstract regex "engine", which is the
    three things the loop asks of its regex.
  - It is implemented as a method whose `forEach` loop updates a cache over
    the `GlobalRegex` object.
- `expand.dfy` (`Entry`): `interpolation.expand`.
  - It covers the options merge.
  - It mutates the caller's `options.suffix` object.
  - It dispatches on string, object and anything else.
  - The object case covers the two escape steps, the merged lookup, and the
    resolution.

Foreign code is taken as parameters:
- `JSON.stringify` and `JSON.parse` are the record `Entry.Json`. A parse that
  throws is `None`.
- `extend` is a right-wins map merge.
- `type-detect` is the constructor of `Documents.Doc`.

An exception is the `Err` case of a `Result`:
- a thrown `Error`;
- a `TypeError` from calling `toString` on `null`, or `replace` on a non-string;
- a `SyntaxError` from `JSON.parse`.

The methods over regex objects are proved against the functions: each one
`ensures` that its result is the function's value. The properties are proved
about the functions.

Where the library's own README and the code disagree, the code is followed:
- An escape form `"${*key}"` does not stay literal. `omitEscapeRegex` drops its
  quotes and its specifier, so the placeholder is interpolated without quotes.
- Errors from `traceNThrow` are plain `Error`s, never `BadRequest`. `type()` of
  a class is never `'Exception'`.
- The recursive call of `flattenAndResolve` passes the sub-key pointer where
  `funcRegex` is expected. Inside the recursion the path is therefore looked up
  as one top-level key (`split(undefined)`). The model keeps this.

The one deliberate departure from the code: the regex builders use the
corrected escaper of the finding below, so every delimiter matches as literal
text. The escaper as written is modelled beside it.

## Model

| member | source | states |
|---|---|---|
| Interpolation.EscapeRegex | lib/main.js:7-9 | a non-string comes back unchanged; for a string, removing the backslashes of the escape pairs gives back the input |
| Interpolation.EscapeRegexDigits | lib/main.js:7 | the range `.-:` makes every digit escaped, while `-` is not |
| Interpolation.EscapeRegexPlain | lib/main.js:8-9 | a string with no character of the class comes back unchanged |
| Interpolation.EscapeRegexReadsBack | lib/main.js:7-9 | the escaped text, read as a regex source, is a plain literal spelling its input if and only if the input has none of the digits 0-7 |
| Interpolation.EscapeRegexDigitPrefix | lib/main.js:7-9 | a prefix `{1` becomes the source `\{\1`, which is not the literal `{1`: its `\1` is a back-reference |
| Interpolation.EscapeRegexFixed | lib/regexp-extensions/index.js:5-8 | with the class of `RegexEscaped`, the escaped text of any string matches exactly that string |
| Interpolation.ParamDelims | lib/main.js:22-32 | with the corrected escaper, the regex matches the trimmed prefix followed by the trimmed specifier (when one is a string), the trimmed suffix, and the trimmed sub-key pointer as separator |
| Interpolation.ParamDelimsAsWritten | lib/main.js:22-32 | the pattern built with `escapeRegex` as written spells the same literal delimiters as `ParamDelims` if and only if the trimmed prefix and specifier, the trimmed suffix and the trimmed sub-key pointer each hold none of the digits 0-7 |
| Interpolation.EscapeDelimsQuoted | lib/main.js:35-40 | the escape regex opens with a quote, the trimmed prefix and the escape specifier, and closes with the trimmed suffix and a quote |
| Interpolation.PaddedDelimiters | tests/interpolate-string.spec.js:56-69 | a prefix and suffix with white-space padding give delimiters without it |
| Interpolation.ParamMatchShape | lib/main.js:22-32 | a match is the trimmed prefix, the trimmed specifier, the capture group and the suffix, and the trimmed capture is a path of words joined by the separator |
| Placeholders.MatchAtIff | lib/main.js:26-29 | the regex matches at a position if and only if a placeholder of the shape `open spaces path spaces close` starts there |
| Placeholders.HasMatchIff | lib/main.js:184 | `test` is true if and only if the regex matches at some position, and then the scan of `match`/`replace` is not empty |
| Placeholders.Scan | lib/main.js:185 | the matches of a global search lie in order, do not overlap, and each is the match the regex makes at its start |
| Placeholders.MatchTextsShape | lib/main.js:185 | `match` gives one text per match of the scan, in order, each the opening delimiter, a capture whose trimmed text is a path, and the closing delimiter |
| Placeholders.RegexLocal | lib/main.js:91 | a match text, searched again on its own, gives the same match |
| Documents.Traverse | lib/main.js:81-86 | the result is always a number, a string or a boolean |
| Documents.TraverseFinds | lib/main.js:81-86 | the result is the value at the end of the split path when every step exists and is truthy and the value is a number, string or boolean; otherwise it is `''` |
| Documents.WalkIsGet | lib/main.js:82-84 | the `reduce` that falls back to `{}` reaches the nested value, and reaches `{}` at the first missing or falsy step |
| Documents.TraverseNotFalsy | lib/main.js:84-85 | a leaf equal to `0`, `false` or `''` comes back as `''` |
| Documents.KeysJoin | lib/main.js:82-83 | without a separator the path is the one key; with one, the keys joined back with it give the path, and no key contains a non-empty separator |
| Documents.TraverseTopLevel | lib/main.js:81-86 | a path without the separator is a top-level key, returned when it is a truthy number, string or boolean |
| Interpolation.MatchSetOfText | lib/main.js:88-94 | on the match texts of a string, `getMatchSet` gives its trimmed placeholder paths, without duplicates, in order of first occurrence; each is a path for the separator |
| Interpolation.InterpolatedNoPlaceholder | lib/main.js:96-106 | a string with no placeholder comes back unchanged (a corollary of the definition; the match facts are in `Placeholders.MatchAtIff`) |
| Interpolation.InterpolatedPlaceholder | lib/main.js:98-105 | a single placeholder becomes the text of its value when `values` has the trimmed path; otherwise itself under `keepAlive`, and `''` without; a `null` value throws |
| Interpolation.InterpolatedKeepsUnknown | lib/main.js:102-103 | under `keepAlive`, a text none of whose paths has a value comes back unchanged |
| Interpolation.InterpolatedSucceeds | lib/main.js:100-101 | with no `null` among the values, the substitution does not throw (a corollary of the definition, used by `Entry.ObjectResolved` with `Expansion.ResolveAccepted`) |
| Interpolation.OmitEscapeForm | lib/main.js:41-45 | an escape form is the quoted prefix, specifier, capture and suffix; `omitEscapeRegex` turns it into the untrimmed prefix, the trimmed path and the untrimmed suffix, with no quotes and no specifier |
| Interpolation.CleanEscapeForm | lib/main.js:46-52 | `cleanEscapes` keeps the quotes and drops only the escape specifier |
| Interpolation.CleanStringEscapeForm | lib/main.js:54-61 | a string escape form becomes a plain placeholder between two string specifiers |
| Expansion.ResolveErrorStops | lib/main.js:129-156 | an exception in a turn of the `forEach` is the outcome of the whole call |
| Expansion.ResolveKeys | lib/main.js:129-157 | every path of the match set is a key of the returned cache |
| Expansion.ResolveAccepted | lib/main.js:131-155 | every cached value is a number, a string or a boolean, never `null` |
| Expansion.ResolveFlat | lib/main.js:131-155 | when no looked-up value holds a placeholder, the cache maps each path to what `traverse` finds there |
| Expansion.KeptKeys | lib/main.js:138-150 | a nested resolution keeps every key of the cache, adds every path of the value's own match set, and stores a string at the path |
| Expansion.ResolveFuel | lib/main.js:140-148 | a result reached within the recursion bound does not change with a larger bound |
| Expansion.SelfReferenceRunsOut | lib/main.js:138-148 | a value that names only itself recurses without end |
| Expansion.SelfPlaceholderRunsOut | lib/main.js:142-147 | a string that is the single placeholder of its own path, looked up inside the recursion, recurses without end |
| Expansion.Interpolate | lib/main.js:96-106 | `getInterpolated` on the regex object gives the substitution, and leaves `lastIndex` at 0 |
| Expansion.FlattenAndResolve | lib/main.js:121-158 | the loop over the match set gives the cache of the definition, and leaves `lastIndex` at 0 |
| Expansion.ResolveTurn | lib/main.js:129-156 | one turn of the `forEach` gives the cache of one step of the definition |
| Expansion.ResolveRest | lib/main.js:137-155 | steps 3 to 3.3 of a turn agree with the definition |
| Expansion.ResolveNested | lib/main.js:138-151 | the recursive resolution of a value's placeholders agrees with the definition |
| Expansion.MergeNested | lib/main.js:140-150 | `extend(cache, sub)` followed by the substitution stores the substituted value at the path |
| RegexExtensions.RegexEscaped | lib/regexp-extensions/index.js:5-8 | a non-string comes back unchanged; a string is trimmed, and its escaped text matches exactly the trimmed string |
| RegexExtensions.RegexEscapedPlain | lib/regexp-extensions/index.js:8 | a string with no special character comes back trimmed |
| RegexExtensions.GlobalRegex.constructor | lib/main.js:23-31 | a new regex has its source and `lastIndex == 0` |
| RegexExtensions.GlobalRegex.Test | lib/regexp-extensions/index.js:13 | `test` searches from `lastIndex`; a match moves `lastIndex` to its end, and a miss resets it to 0 |
| RegexExtensions.GlobalRegex.NonStickyTest | lib/regexp-extensions/index.js:11-16 | the result is whether the regex matches anywhere, whatever `lastIndex` was before, and `lastIndex` is 0 afterwards |
| RegexExtensions.GlobalRegex.MatchAll | lib/main.js:185 | `match` gives every match text and leaves `lastIndex` at 0 |
| RegexExtensions.GlobalRegex.Replace | lib/main.js:98 | `replace` with a callback gives the substitution and leaves `lastIndex` at 0 |
| RegexExtensions.FixRegexStickyTest | lib/regexp-extensions/index.js:10-17 | attaches `nonStickyTest` and changes nothing else on the regex |
| SetOperations.FromSeqOrder | lib/setoperations/index.js:4 | `new Set(xs)` holds exactly the elements of `xs`, once each, in order of first occurrence |
| SetOperations.AddAllAppends | lib/setoperations/index.js:5 | adding elements keeps the set's elements in place and appends the new ones, once each, in order |
| SetOperations.DeleteAllIsWithout | lib/setoperations/index.js:11 | deleting elements one by one removes exactly those elements and keeps the order of the rest |
| SetOperations.Union | lib/setoperations/index.js:3-7 | the result has no duplicates and holds exactly the elements of A or B: A's first, then B's new ones in B's order |
| SetOperations.UnionOrder | lib/setoperations/index.js:4-5 | for a set A, the result starts with A itself |
| SetOperations.Subtract | lib/setoperations/index.js:9-13 | the result has no duplicates and holds exactly the elements of `setFrom` that are not in `setVal`, in `setFrom`'s order |
| SetOperations.SubtractOrder | lib/setoperations/index.js:10-11 | for a set `setFrom`, the result is `setFrom` with `setVal`'s elements removed |
| SetOperations.EmptyArguments | lib/setoperations/index.js:3-13 | `union(A, ∅)` and `subtract(A, ∅)` equal A |
| Entry.NormalizedSuffix | lib/main.js:165 | a non-empty prefix with a missing or empty suffix sets the suffix to `''`; otherwise the suffix is kept |
| Entry.MergeNothing | lib/main.js:12-20 | with no options, the defaults `${`, `}`, `.`, `=`, `*`, `'` |
| Entry.PrefixOnlyHasNoSuffix | tests/interpolate-string.spec.js:70-89 | a prefix given without a suffix leads to an empty closing delimiter |
| Entry.CallOptions.constructor | lib/main.js:162 | the caller's options object holds the options given |
| Entry.CachedValueRightWins | lib/main.js:182 | the lookup holds the keys of both the object and the values, with the caller's value wherever both have a key |
| Entry.CallerValuesWin | lib/main.js:182 | a top-level path that the caller gives a value for is looked up in the caller's values |
| Entry.ExpandOther | lib/main.js:205-207 | an input that is neither an object nor a string comes back unchanged (a corollary of the definition) |
| Entry.ExpandPlainString | tests/interpolate-string.spec.js:18-27 | a string without placeholders comes back unchanged, with or without values (a corollary of the definition) |
| Entry.ExpandNeedsValues | lib/main.js:196-204 | a string with a placeholder and `values === null` throws `Please provide "values"` |
| Entry.ExpandString | tests/interpolate-string.spec.js:5-17 | a string is substituted from the flat values; it fails exactly when a placeholder names `null`, so it never fails when no value is `null` |
| Entry.ExpandPlaceholder | lib/main.js:196-218 | a string that is one placeholder becomes the text of its value, or `''` when there is none |
| Entry.ExpandPlainObject | lib/main.js:172-215 | an object with no placeholder and no escape form is read back from its own text, so it comes back unchanged when parsing inverts serialising |
| Entry.ObjectResolved | lib/main.js:184-215 | once the cache is resolved it covers every path of the text, and the final substitution cannot throw |
| Entry.ObjectResolveFails | lib/main.js:186-192 | an exception while resolving is the outcome of the object case |
| Entry.Expand | lib/main.js:162-220 | sets the caller's `options.suffix` as `NormalizedSuffix` says, and gives the result of the definition over the merged options |
| Entry.ExpandWith | lib/main.js:166-220 | builds the regexes and agrees with the definition |
| Entry.ExpandObject | lib/main.js:172-195 | the object case over the three regex objects agrees with the definition |
| Entry.InterpolateObject | lib/main.js:182-215 | the `test`/`match`/resolve/`getInterpolated`/parse sequence agrees with the definition |
| Entry.Unescape | lib/main.js:173-181 | the two escape steps agree with the definition |
| Entry.CleanStrings | lib/main.js:174-177 | the string escape step agrees with the definition |
| Entry.OmitEscapeForms | lib/main.js:178-181 | the escape step parses the cleaned text and keeps the omitted one |
| Entry.ExpandText | lib/main.js:196-210 | the string case over the regex object agrees with the definition |

## Left out

- Logging, `debug()` and `reset()` only gate and restore console output, so they are not modelled.
- `JSON.stringify` and `JSON.parse` are parameters. `extend` and `type-detect` are written out as a map merge and the cases of `Doc`.
- Prototype properties: `parent[key]` and `hasOwnProperty` see only a value's own keys, plus array indices, string indices and `length`.
- Documents.Member: strings are sequences of Unicode scalar values, not of UTF-16 code units. For a string holding characters outside the Basic Multilingual Plane, the model's `length` and indices count characters where JavaScript counts code units, and `split('')` (`Strings.Chars`, reached when the sub-key pointer trims to nothing) keeps such a character whole where JavaScript splits it into two surrogates. Lone surrogates cannot be represented.
- Numbers are integers. The text of a non-integer number comes from JavaScript's floating-point formatting, which is not modelled.
- Expansion.Resolve: the recursion of `flattenAndResolve` has a `fuel` bound. Running out of it is the error `OutOfFuel`, which stands for the stack overflow of the source. `Expansion.ResolveFuel` shows that the bound changes no result reached within it.
- `funcRegex` is built but never used. `getInterpolatedFunc` has the same body as `getInterpolated`, and `Interpolation.GetInterpolated` models both.
- `extend(cache, x)` when `x` is not an object: the recursive result is always an object, so this case does not arise.
- Options that are not strings: every option is a string once merged. A prefix or suffix of another type would throw at `trim` and is not modelled.
- Interpolation.ParamDelims: the delimiters are read from the corrected escaper's pattern, so a trimmed prefix, specifier, suffix or sub-key pointer holding a digit 0-7 is modelled as that literal text. The source's pattern reads such a digit after its backslash as a NUL, an octal escape or a back-reference; what that regex then matches is not modelled, here or in anything built on `ParamDelims` (the escape and string delimiters and `expand`). `Interpolation.ParamDelimsAsWritten` shows that the two agree exactly when none of those options holds such a digit.
- Interpolation.CleanEscapeForm: it is stated only when the prefix plus specifier does not start with a quote and the prefix holds no `$` pattern of `replace`. In the other cases `cleanEscapes` still behaves as `Interpolation.CleanEscapes` defines it, but the short result shape is not proved.
- The property that a literal leaf keeps its own value when an override exists (tests/interpolate-json.spec.js:41-43) is a statement about where a leaf sits in the serialised text. Serialising is a parameter, so this is not stated. The text-level facts are proved: text outside placeholders is copied by the substitution, and `Entry.ExpandPlainObject` covers an object without placeholders.
- `union` and `subtract` build fresh sets. Sequences are values in the model, so the inputs cannot change and no separate statement is needed.
- The exception classes only name errors. Each one is a case of `Interpolation.Error`.

## Findings

| source | as written | input that shows it | evidently intended | confidence | as-written member | corrected member |
|---|---|---|---|---|---|---|
| lib/main.js:7 | the class of `regexEscaped` holds `.-:`, a range from `.` to `:`. That range takes in `/` and all the digits, so `escapeRegex` puts a backslash before every digit. In a regex source, `\1` to `\7` are back-references or octal escapes, not digits, so a delimiter with a digit 0-7 is no longer a pattern of plain literal characters. | prefix `{1`: the source becomes `\{\1`, whose `\1` is a back-reference, not the digit, so the pattern is not the literal `{1` | a class without the range, like the one `RegexEscaped` uses (lib/regexp-extensions/index.js:5), so every delimiter matches literally | not executed | Interpolation.EscapeRegexReadsBack, Interpolation.EscapeRegexDigitPrefix | Interpolation.EscapeRegexFixed |
