// lib/main.js, `interpolation.expand`: the options the caller gives, merged
// over the defaults, and the three ways an input is treated: an object is
// interpolated on its serialised text, a string directly, anything else is
// given back.  `JSON.stringify` and `JSON.parse` are parameters.

module Entry {
  import opened Wrappers
  import opened Strings
  import opened Documents
  import opened Placeholders
  import opened SetOperations
  import opened RegexExtensions
  import opened Interpolation
  import opened Expansion

  /** `JSON.stringify` and `JSON.parse`; `parse` gives `None` where it
      would throw a `SyntaxError`. */
  datatype Json = Json(stringify: Doc -> string, parse: string -> Option<Doc>)

  /** `JSON.parse(s)`. */
  function Parse(json: Json, s: string): Result<Doc, Error> {
    match json.parse(s)
    case Some(doc) => Ok(doc)
    case None => Err(SyntaxError)
  }

  const MissingValues: string := "Please provide \"values\""

  // ---------------------------------------------------------------------------
  // The options

  /** The suffix after `if (options.prefix && !options.suffix)
      options.suffix = ''`: a prefix that is not empty, given with no suffix
      or an empty one, leaves the suffix empty rather than undefined. */
  function NormalizedSuffix(prefix: Option<string>, suffix: Option<string>): (r: Option<string>)
    ensures prefix.Some? && prefix.value != [] && suffix.GetOr([]) == [] ==> r == Some([])
    ensures suffix.Some? && suffix.value != [] ==> r == suffix
    ensures (prefix.None? || prefix.value == []) ==> r == suffix
  {
    if prefix.Some? && prefix.value != [] && (suffix.None? || suffix.value == []) then Some([]) else suffix
  }

  /** `extend({}, defaultOptions, options)`: an option the caller gives
      replaces the default, an option left undefined does not. */
  function Merge(prefix: Option<string>, suffix: Option<string>, subKeyPointer: Option<string>,
                 funcSpecifier: Option<string>, escapeSpecifier: Option<string>, stringSpecifier: Option<string>): Options
  {
    Options(prefix.GetOr(DefaultOptions.prefix), suffix.GetOr(DefaultOptions.suffix),
      subKeyPointer.GetOr(DefaultOptions.subKeyPointer), funcSpecifier.GetOr(DefaultOptions.funcSpecifier),
      escapeSpecifier.GetOr(DefaultOptions.escapeSpecifier), stringSpecifier.GetOr(DefaultOptions.stringSpecifier))
  }

  /** With no options, the defaults. */
  lemma MergeNothing()
    ensures Merge(None, None, None, None, None, None) == DefaultOptions
  {
  }

  /** A prefix given on its own does not bring in the default suffix: the
      placeholder then ends where its path ends. */
  lemma PrefixOnlyHasNoSuffix(prefix: string, subKeyPointer: Option<string>,
                               funcSpecifier: Option<string>, escapeSpecifier: Option<string>, stringSpecifier: Option<string>)
    requires prefix != []
    ensures var o := Merge(Some(prefix), NormalizedSuffix(Some(prefix), None), subKeyPointer, funcSpecifier, escapeSpecifier, stringSpecifier);
      o.prefix == prefix && o.suffix == [] && ParamDelims(o, None).close == []
  {
    assert Trim([]) == [];
  }

  /** The `options` object of the caller, which `expand` may change. */
  class CallOptions {
    var prefix: Option<string>
    var suffix: Option<string>
    var subKeyPointer: Option<string>
    var funcSpecifier: Option<string>
    var escapeSpecifier: Option<string>
    var stringSpecifier: Option<string>

    constructor (prefix: Option<string>, suffix: Option<string>, subKeyPointer: Option<string>,
                 funcSpecifier: Option<string>, escapeSpecifier: Option<string>, stringSpecifier: Option<string>)
      ensures this.prefix == prefix && this.suffix == suffix && this.subKeyPointer == subKeyPointer
      ensures this.funcSpecifier == funcSpecifier && this.escapeSpecifier == escapeSpecifier
      ensures this.stringSpecifier == stringSpecifier
    {
      this.prefix := prefix;
      this.suffix := suffix;
      this.subKeyPointer := subKeyPointer;
      this.funcSpecifier := funcSpecifier;
      this.escapeSpecifier := escapeSpecifier;
      this.stringSpecifier := stringSpecifier;
    }

    function Merged(): Options
      reads this
    {
      Merge(prefix, suffix, subKeyPointer, funcSpecifier, escapeSpecifier, stringSpecifier)
    }
  }

  // ---------------------------------------------------------------------------
  // What `expand` computes

  /** The string escape forms of the serialised object are cleaned, and the
      object is read back from the cleaned text. */
  function CleanedStrings(sObj: string, obj: Doc, o: Options, json: Json): Result<(string, Doc), Error> {
    if HasMatch(sObj, Regex(StringEscapeDelims(o))) then
      var cleaned := CleanStringEscapes(sObj, o);
      var doc :- Parse(json, cleaned);
      Ok((cleaned, doc))
    else Ok((sObj, obj))
  }

  /** The escape forms: the object is read back from the text with the
      escape specifiers removed, and the text keeps them as plain
      placeholders without their quotes. */
  function OmittedEscapes(sObj: string, obj: Doc, o: Options, json: Json): Result<(string, Doc), Error> {
    if HasMatch(sObj, Regex(EscapeDelims(o))) then
      var doc :- Parse(json, CleanEscapes(sObj, o));
      Ok((OmitEscapes(sObj, o), doc))
    else Ok((sObj, obj))
  }

  /** The text that is interpolated and the object whose leaves are looked
      up, once both escape forms are dealt with. */
  function EscapedText(obj: Doc, o: Options, json: Json): Result<(string, Doc), Error> {
    var strings :- CleanedStrings(json.stringify(obj), obj, o, json);
    OmittedEscapes(strings.0, strings.1, o, json)
  }

  /** `extend({}, obj, values || {})`. */
  function CachedValue(obj: Doc, values: Option<map<string, Doc>>): map<string, Doc> {
    (if obj.Obj? then obj.fields else map[]) + values.GetOr(map[])
  }

  /** The lookup holds the fields of the object and the caller's values, and
      where both have a key, the caller's value. */
  lemma CachedValueRightWins(obj: Doc, values: Option<map<string, Doc>>)
    ensures var m := CachedValue(obj, values);
      m.Keys == (if obj.Obj? then obj.fields.Keys else {}) + (if values.Some? then values.value.Keys else {})
    ensures var m := CachedValue(obj, values);
      values.Some? ==> forall k :: k in values.value ==> m[k] == values.value[k]
    ensures var m := CachedValue(obj, values);
      obj.Obj? ==> forall k :: k in obj.fields && (values.None? || k !in values.value) ==> m[k] == obj.fields[k]
  {
  }

  /** The rest of the `'Object'` case, on the text left by the escape steps
      and the merged lookup: when the text holds placeholders, the cache of
      their paths is resolved and substituted; the text is read back. */
  function ObjectOf(text: string, lookup: map<string, Doc>, o: Options, json: Json, fuel: nat): Result<Doc, Error> {
    var d := ParamDelims(o, None);
    if HasMatch(text, Regex(d)) then
      var resolved :- Resolve(Obj(lookup), GetMatchSet(MatchTexts(text, Regex(d)), d), ParamEngine(d), Some(o.subKeyPointer), fuel);
      var result :- GetInterpolated(text, d, resolved, false);
      Parse(json, result)
    else Parse(json, text)
  }

  /** `expand(obj, values, options)` with the options already merged;
      `values` is `None` for `null`. */
  function ExpandOf(obj: Doc, values: Option<map<string, Doc>>, o: Options, json: Json, fuel: nat): Result<Doc, Error> {
    match obj
    case Obj(_) => ObjectCase(obj, values, o, json, fuel)
    case Str(s) => StringCase(s, values, o)
    case _ => Ok(obj)
  }

  /** The `'Object'` case: the escape steps on the serialised object, then
      the interpolation of the text left. */
  function ObjectCase(obj: Doc, values: Option<map<string, Doc>>, o: Options, json: Json, fuel: nat): Result<Doc, Error> {
    var escaped :- EscapedText(obj, o, json);
    ObjectOf(escaped.0, CachedValue(escaped.1, values), o, json, fuel)
  }

  /** The `'string'` case: a string with placeholders needs values. */
  function StringCase(s: string, values: Option<map<string, Doc>>, o: Options): Result<Doc, Error> {
    var d := ParamDelims(o, None);
    if !HasMatch(s, Regex(d)) then Ok(Str(s))
    else if values.None? then Err(PlainError(MissingValues))
    else
      var result :- GetInterpolated(s, d, values.value, false);
      Ok(Str(result))
  }

  lemma ExpandCases(obj: Doc, values: Option<map<string, Doc>>, o: Options, json: Json, fuel: nat)
    ensures obj.Obj? ==> ExpandOf(obj, values, o, json, fuel) == ObjectCase(obj, values, o, json, fuel)
    ensures obj.Str? ==> ExpandOf(obj, values, o, json, fuel) == StringCase(obj.s, values, o)
    ensures !obj.Obj? && !obj.Str? ==> ExpandOf(obj, values, o, json, fuel) == Ok(obj)
  {
    match obj
    case Obj(_) =>
    case _ =>
  }

  // ---------------------------------------------------------------------------
  // Properties of `expand`

  /** An input that is neither an object nor a string comes back as it is. */
  lemma ExpandOther(obj: Doc, values: Option<map<string, Doc>>, o: Options, json: Json, fuel: nat)
    requires !obj.Obj? && !obj.Str?
    ensures ExpandOf(obj, values, o, json, fuel) == Ok(obj)
  {
  }

  /** A string without placeholders comes back as it is, with or without
      values. */
  lemma ExpandPlainString(s: string, values: Option<map<string, Doc>>, o: Options, json: Json, fuel: nat)
    requires !HasMatch(s, Regex(ParamDelims(o, None)))
    ensures ExpandOf(Str(s), values, o, json, fuel) == Ok(Str(s))
  {
  }

  /** A string with a placeholder and no values is an error. */
  lemma ExpandNeedsValues(s: string, o: Options, json: Json, fuel: nat)
    requires HasMatch(s, Regex(ParamDelims(o, None)))
    ensures ExpandOf(Str(s), None, o, json, fuel) == Err(PlainError(MissingValues))
  {
  }

  /** A string is substituted from the values given, which are not
      resolved any further; it fails only on a `null` value. */
  lemma ExpandString(s: string, values: map<string, Doc>, o: Options, json: Json, fuel: nat)
    ensures var d := ParamDelims(o, None);
      ExpandOf(Str(s), Some(values), o, json, fuel) ==
        if ReachesNull(s, d, values) then Err(TypeError)
        else Ok(Str(Substitute(s, Regex(d), Lookup(values, false), 0)))
    ensures NoNull(values) ==> ExpandOf(Str(s), Some(values), o, json, fuel).Ok?
  {
    var d := ParamDelims(o, None);
    if !HasMatch(s, Regex(d)) {
      InterpolatedNoPlaceholder(s, d, values, false);
    }
  }

  /** A string that is one placeholder becomes the text of the value of its
      path, and nothing when there is no such value. */
  lemma ExpandPlaceholder(s: string, p: Placeholder, values: map<string, Doc>, o: Options, json: Json, fuel: nat)
    requires IsMatchAt(s, Regex(ParamDelims(o, None)), p) && p.start == 0 && p.end == |s|
    ensures var path := Trim(s[p.bodyStart..p.bodyEnd]);
      ExpandOf(Str(s), Some(values), o, json, fuel) ==
        if path in values && values[path] == Null then Err(TypeError)
        else if path in values then Ok(Str(ToText(values[path])))
        else Ok(Str([]))
  {
    var d := ParamDelims(o, None);
    assert s[p.start..p.end] == s;
    assert s[0..] == s;
    InterpolatedPlaceholder(s, d, p, values, false);
  }

  /** An object whose text holds no placeholder and no escape form is read
      back from its own text; the values play no part. */
  lemma ExpandPlainObject(obj: Doc, values: Option<map<string, Doc>>, o: Options, json: Json, fuel: nat)
    requires obj.Obj?
    requires var t := json.stringify(obj);
      !HasMatch(t, Regex(StringEscapeDelims(o))) && !HasMatch(t, Regex(EscapeDelims(o))) && !HasMatch(t, Regex(ParamDelims(o, None)))
    ensures ExpandOf(obj, values, o, json, fuel) == Parse(json, json.stringify(obj))
    ensures json.parse(json.stringify(obj)) == Some(obj) ==> ExpandOf(obj, values, o, json, fuel) == Ok(obj)
  {
    var t := json.stringify(obj);
    PlainEscaped(obj, o, json);
    ExpandCases(obj, values, o, json, fuel);
    assert ObjectOf(t, CachedValue(obj, values), o, json, fuel) == Parse(json, t);
  }

  /** Neither escape step changes a text that holds no escape form. */
  lemma PlainEscaped(obj: Doc, o: Options, json: Json)
    requires var t := json.stringify(obj);
      !HasMatch(t, Regex(StringEscapeDelims(o))) && !HasMatch(t, Regex(EscapeDelims(o)))
    ensures EscapedText(obj, o, json) == Ok((json.stringify(obj), obj))
  {
    var t := json.stringify(obj);
    assert CleanedStrings(t, obj, o, json) == Ok((t, obj));
    assert OmittedEscapes(t, obj, o, json) == Ok((t, obj));
  }

  /** Once the cache is resolved, every placeholder of the object's text
      has a value in it, and the final substitution cannot throw: the
      `'Object'` case fails only where resolving or reading back the text
      fails. */
  lemma ObjectResolved(text: string, lookup: map<string, Doc>, o: Options, json: Json, fuel: nat, resolved: map<string, Doc>)
    requires var d := ParamDelims(o, None);
      HasMatch(text, Regex(d)) &&
      Resolve(Obj(lookup), GetMatchSet(MatchTexts(text, Regex(d)), d), ParamEngine(d), Some(o.subKeyPointer), fuel) == Ok(resolved)
    ensures forall x :: x in Paths(text, ParamDelims(o, None)) ==> x in resolved
    ensures ObjectOf(text, lookup, o, json, fuel) ==
      Parse(json, Substitute(text, Regex(ParamDelims(o, None)), Lookup(resolved, false), 0))
  {
    var d := ParamDelims(o, None);
    ResolvedCoversPaths(text, lookup, d, Some(o.subKeyPointer), fuel, resolved);
    ResolvedNoNull(Obj(lookup), GetMatchSet(MatchTexts(text, Regex(d)), d), ParamEngine(d), Some(o.subKeyPointer), fuel, resolved);
    InterpolatedNoNull(text, d, resolved);
  }

  lemma ResolvedNoNull(obj: Doc, ms: seq<string>, e: Engine, sep: Option<string>, fuel: nat, resolved: map<string, Doc>)
    requires Resolve(obj, ms, e, sep, fuel) == Ok(resolved)
    ensures NoNull(resolved)
  {
    ResolveAccepted(obj, ms, e, sep, fuel);
  }

  lemma InterpolatedNoNull(text: string, d: Delims, resolved: map<string, Doc>)
    requires NoNull(resolved)
    ensures GetInterpolated(text, d, resolved, false) == Ok(Substitute(text, Regex(d), Lookup(resolved, false), 0))
  {
  }

  lemma ResolvedCoversPaths(text: string, lookup: map<string, Doc>, d: Delims, sep: Option<string>, fuel: nat, resolved: map<string, Doc>)
    requires Resolve(Obj(lookup), GetMatchSet(MatchTexts(text, Regex(d)), d), ParamEngine(d), sep, fuel) == Ok(resolved)
    ensures forall x :: x in Paths(text, d) ==> x in resolved
  {
    MatchSetOfText(text, d);
    ResolveKeys(Obj(lookup), GetMatchSet(MatchTexts(text, Regex(d)), d), ParamEngine(d), sep, fuel);
  }

  /** A resolving error is the error of the `'Object'` case. */
  lemma ObjectResolveFails(text: string, lookup: map<string, Doc>, o: Options, json: Json, fuel: nat)
    requires var d := ParamDelims(o, None);
      HasMatch(text, Regex(d)) &&
      Resolve(Obj(lookup), GetMatchSet(MatchTexts(text, Regex(d)), d), ParamEngine(d), Some(o.subKeyPointer), fuel).Err?
    ensures var d := ParamDelims(o, None);
      ObjectOf(text, lookup, o, json, fuel) ==
        Err(Resolve(Obj(lookup), GetMatchSet(MatchTexts(text, Regex(d)), d), ParamEngine(d), Some(o.subKeyPointer), fuel).error)
  {
  }

  /** A top-level path of the object's text is looked up in the caller's
      values first, and in the object's own fields otherwise. */
  lemma CallerValuesWin(doc: Doc, values: map<string, Doc>, key: string, sep: string)
    requires sep != [] && IndexOf(key, sep, 0).None?
    requires key in values
    ensures Traverse(Obj(CachedValue(doc, Some(values))), key, Some(sep)) ==
      if Accepted(values[key]) && !Falsy(values[key]) then values[key] else Str("")
  {
    CachedValueRightWins(doc, Some(values));
    TraverseTopLevel(CachedValue(doc, Some(values)), key, Some(sep));
  }

  // ---------------------------------------------------------------------------
  // `expand` over the regex objects

  /** `interpolation.expand(obj, values, options)`. */
  method Expand(obj: Doc, values: Option<map<string, Doc>>, options: CallOptions, json: Json, fuel: nat)
    returns (r: Result<Doc, Error>)
    modifies options`suffix
    ensures options.suffix == NormalizedSuffix(old(options.prefix), old(options.suffix))
    ensures r == ExpandOf(obj, values, options.Merged(), json, fuel)
  {
    if options.prefix.Some? && options.prefix.value != [] && (options.suffix.None? || options.suffix.value == []) {
      options.suffix := Some([]);
    }
    r := ExpandWith(obj, values, options.Merged(), json, fuel);
  }

  /** `expand` once the options are merged: the four regexes are built
      from them, and the input is dispatched on its type. */
  method ExpandWith(obj: Doc, values: Option<map<string, Doc>>, o: Options, json: Json, fuel: nat)
    returns (r: Result<Doc, Error>)
    ensures r == ExpandOf(obj, values, o, json, fuel)
  {
    var paramRegex := new GlobalRegex(ParamDelims(o, None));
    var escapeRegex := new GlobalRegex(EscapeDelims(o));
    var escapeStringRegex := new GlobalRegex(StringEscapeDelims(o));
    if obj.Obj? {
      r := ExpandObject(obj, values, o, json, fuel, paramRegex, escapeRegex, escapeStringRegex);
    } else if obj.Str? {
      r := ExpandText(obj.s, values, o, paramRegex);
    } else {
      r := Ok(obj);
    }
    ExpandCases(obj, values, o, json, fuel);
  }

  /** The `'Object'` case: the serialised object, its escape forms, the
      cache resolved from the merged lookup, and the text read back. */
  method ExpandObject(obj: Doc, values: Option<map<string, Doc>>, o: Options, json: Json, fuel: nat,
                      paramRegex: GlobalRegex, escapeRegex: GlobalRegex, escapeStringRegex: GlobalRegex)
    returns (r: Result<Doc, Error>)
    requires paramRegex.source == ParamDelims(o, None) && paramRegex.lastIndex == 0
    requires escapeRegex.source == EscapeDelims(o) && escapeRegex.lastIndex == 0
    requires escapeStringRegex.source == StringEscapeDelims(o) && escapeStringRegex.lastIndex == 0
    requires paramRegex != escapeRegex && paramRegex != escapeStringRegex && escapeRegex != escapeStringRegex
    modifies paramRegex`lastIndex, escapeRegex`lastIndex, escapeStringRegex`lastIndex
    ensures r == ObjectCase(obj, values, o, json, fuel)
  {
    var escaped := Unescape(obj, o, json, escapeRegex, escapeStringRegex);
    if escaped.Err? {
      return Err(escaped.error);
    }
    r := InterpolateObject(escaped.value.0, CachedValue(escaped.value.1, values), o, json, fuel, paramRegex);
  }

  /** The rest of the `'Object'` case on the parameter regex. */
  method InterpolateObject(sObj: string, cachedValue: map<string, Doc>, o: Options, json: Json, fuel: nat, paramRegex: GlobalRegex)
    returns (r: Result<Doc, Error>)
    requires paramRegex.source == ParamDelims(o, None) && paramRegex.lastIndex == 0
    modifies paramRegex`lastIndex
    ensures r == ObjectOf(sObj, cachedValue, o, json, fuel)
  {
    var d := paramRegex.source;
    var dirty := paramRegex.Test(sObj);
    if !dirty {
      return Parse(json, sObj);
    }
    var matches := paramRegex.MatchAll(sObj);
    ParamEngineDrives(d);
    var resolved := FlattenAndResolve(Obj(cachedValue), GetMatchSet(matches, d), paramRegex, Some(o.subKeyPointer), fuel, ParamEngine(d));
    if resolved.Err? {
      return Err(resolved.error);
    }
    var result := Interpolate(sObj, paramRegex, resolved.value, false);
    if result.Err? {
      return Err(result.error);
    }
    r := Parse(json, result.value);
  }

  /** The two escape steps of the `'Object'` case, each a `test` and then
      `replace` calls on the escape regexes. */
  method Unescape(obj: Doc, o: Options, json: Json, escapeRegex: GlobalRegex, escapeStringRegex: GlobalRegex)
    returns (r: Result<(string, Doc), Error>)
    requires escapeRegex.source == EscapeDelims(o) && escapeRegex.lastIndex == 0
    requires escapeStringRegex.source == StringEscapeDelims(o) && escapeStringRegex.lastIndex == 0
    requires escapeRegex != escapeStringRegex
    modifies escapeRegex`lastIndex, escapeStringRegex`lastIndex
    ensures r == EscapedText(obj, o, json)
  {
    var strings := CleanStrings(json.stringify(obj), obj, o, json, escapeStringRegex);
    if strings.Err? {
      return Err(strings.error);
    }
    r := OmitEscapeForms(strings.value.0, strings.value.1, o, json, escapeRegex);
  }

  /** The string escape step: a `test`, then a `replace` and a parse. */
  method CleanStrings(sObj: string, obj: Doc, o: Options, json: Json, escapeStringRegex: GlobalRegex)
    returns (r: Result<(string, Doc), Error>)
    requires escapeStringRegex.source == StringEscapeDelims(o) && escapeStringRegex.lastIndex == 0
    modifies escapeStringRegex`lastIndex
    ensures r == CleanedStrings(sObj, obj, o, json)
  {
    var hasStrings := escapeStringRegex.Test(sObj);
    if !hasStrings {
      return Ok((sObj, obj));
    }
    var cleaned := escapeStringRegex.Replace(sObj, StringParam(o));
    var parsed := Parse(json, cleaned);
    if parsed.Err? {
      return Err(parsed.error);
    }
    r := Ok((cleaned, parsed.value));
  }

  /** The escape step: a `test`, then one `replace` whose text is parsed and
      another whose text is kept. */
  method OmitEscapeForms(sObj: string, obj: Doc, o: Options, json: Json, escapeRegex: GlobalRegex)
    returns (r: Result<(string, Doc), Error>)
    requires escapeRegex.source == EscapeDelims(o) && escapeRegex.lastIndex == 0
    modifies escapeRegex`lastIndex
    ensures r == OmittedEscapes(sObj, obj, o, json)
  {
    var hasEscapes := escapeRegex.Test(sObj);
    if !hasEscapes {
      return Ok((sObj, obj));
    }
    var cleaned := escapeRegex.Replace(sObj, CleanParam(o));
    var parsed := Parse(json, cleaned);
    if parsed.Err? {
      return Err(parsed.error);
    }
    var omitted := escapeRegex.Replace(sObj, OmitParam(o));
    r := Ok((omitted, parsed.value));
  }

  /** The `'string'` case. */
  method ExpandText(s: string, values: Option<map<string, Doc>>, o: Options, paramRegex: GlobalRegex)
    returns (r: Result<Doc, Error>)
    requires paramRegex.source == ParamDelims(o, None) && paramRegex.lastIndex == 0
    modifies paramRegex`lastIndex
    ensures r == StringCase(s, values, o)
  {
    var dirty := paramRegex.Test(s);
    if !dirty {
      return Ok(Str(s));
    }
    if values.None? {
      return Err(PlainError(MissingValues));
    }
    var result := Interpolate(s, paramRegex, values.value, false);
    if result.Err? {
      return Err(result.error);
    }
    r := Ok(Str(result.value));
  }
}
