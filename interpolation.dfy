// lib/main.js, the pure part: `escapeRegex`, the regex builders, the
// delimiter options, `getMatchSet`, `getInterpolated` and the clean-up of the
// escape forms.

module Interpolation {
  import opened Wrappers
  import opened Strings
  import opened Documents
  import opened RegexSource
  import opened Placeholders
  import opened SetOperations
  import RegexExtensions

  /** What `expand` can throw. */
  datatype Error =
    | PlainError(message: string)  // `traceNThrow`, which always throws a plain `Error`
    | TypeError                    // a method called on a value that lacks it
    | SyntaxError                  // `JSON.parse` on text that is not JSON
    | OutOfFuel                    // the recursion of `flattenAndResolve` went too deep

  /** The delimiter options after they are merged with the defaults. */
  datatype Options = Options(
    prefix: string,
    suffix: string,
    subKeyPointer: string,
    funcSpecifier: string,
    escapeSpecifier: string,
    stringSpecifier: string)

  const DefaultOptions: Options := Options("${", "}", ".", "=", "*", "'")

  // ---------------------------------------------------------------------------
  // `escapeRegex`

  /** The class `[\\/|#<>{}()[\]^$+*?.-:!]`: `.-:` is a range, which takes in
      `/` and the ten digits and leaves `-` out. */
  predicate InRegexEscapedClass(c: char) {
    c == '\\' || c == '/' || c == '|' || c == '#' || c == '<' || c == '>' || c == '{' || c == '}'
    || c == '(' || c == ')' || c == '[' || c == ']' || c == '^' || c == '$' || c == '+'
    || c == '*' || c == '?' || c == '!' || ('.' <= c <= ':')
  }

  /** `escapeRegex`, as written: a backslash before every character of the
      class; a value that is not a string is given back. */
  function EscapeRegex(v: Doc): (r: Doc)
    ensures !v.Str? ==> r == v
    ensures v.Str? ==> r.Str? && Unescape(r.s) == v.s
  {
    if v.Str? then
      UnescapeEscape(v.s, InRegexEscapedClass);
      Str(Escape(v.s, InRegexEscapedClass))
    else v
  }

  /** A digit is escaped while `-` is not. */
  lemma EscapeRegexDigits(c: char)
    ensures '0' <= c <= '9' ==> EscapeRegex(Str([c])) == Str(['\\', c])
    ensures EscapeRegex(Str("-")) == Str("-")
  {
    if '0' <= c <= '9' {
      assert Escape([c], InRegexEscapedClass) == ['\\', c] + Escape([], InRegexEscapedClass);
    }
    assert Escape("-", InRegexEscapedClass) == "-" + Escape([], InRegexEscapedClass);
  }

  /** A text without characters of the class is left as it is. */
  lemma EscapeRegexPlain(s: string)
    requires forall i :: 0 <= i < |s| ==> !InRegexEscapedClass(s[i])
    ensures EscapeRegex(Str(s)) == Str(s)
  {
    EscapeNothing(s, InRegexEscapedClass);
  }

  /** A text holding none of the digits 0 to 7. */
  predicate OctalFree(s: string) {
    forall i :: 0 <= i < |s| ==> !('0' <= s[i] <= '7')
  }

  /** The escaped text is a plain literal spelling the delimiter it was made
      from exactly when the delimiter holds none of the digits 0 to 7: an
      escaped digit is a back-reference, a NUL or an octal escape, not the
      digit. */
  lemma EscapeRegexReadsBack(s: string)
    ensures LiteralOf(EscapeRegex(Str(s)).s) == Some(s) <==> OctalFree(s)
  {
    LiteralOfEscape(s, InRegexEscapedClass);
    assert forall c :: ReadsBack(c, InRegexEscapedClass) <==> !('0' <= c <= '7');
  }

  /** A prefix such as `{1` gives a pattern that is not the literal `{1`:
      its `\\1` is a back-reference. */
  lemma EscapeRegexDigitPrefix()
    ensures EscapeRegex(Str("{1")).s == "\\{\\1"
    ensures LiteralOf(EscapeRegex(Str("{1")).s) != Some("{1")
  {
    EscapeRegexReadsBack("{1");
  }

  /** `escapeRegex` with the class of `RegexEscaped`, in which `-` is escaped
      on its own and no range takes in the digits. */
  function EscapeRegexFixed(v: Doc): (r: Doc)
    ensures !v.Str? ==> r == v
    ensures v.Str? ==> r.Str? && LiteralOf(r.s) == Some(v.s)
  {
    if v.Str? then
      RegexExtensions.EscapedClassReadsBack();
      LiteralOfEscape(v.s, RegexExtensions.InEscapedClass);
      Str(Escape(v.s, RegexExtensions.InEscapedClass))
    else v
  }

  function Fragment(s: string): string {
    EscapeRegexFixed(Str(s)).s
  }

  // ---------------------------------------------------------------------------
  // The regex builders

  /** `getParamRegex(opt, specifier)`: the delimiters read from the pattern
      source, which escapes the trimmed prefix, specifier, sub-key pointer
      and suffix.  A specifier that is not a string adds nothing. */
  function ParamDelims(o: Options, specifier: Option<string>): (d: Delims)
    ensures d.open == Trim(o.prefix) + (if specifier.Some? then Trim(specifier.value) else [])
    ensures d.close == Trim(o.suffix) && d.sep == Trim(o.subKeyPointer)
  {
    var spec := if specifier.Some? then Trim(specifier.value) else [];
    var open := Fragment(Trim(o.prefix)) + Fragment(spec);
    EscapeAppend(Trim(o.prefix), spec, RegexExtensions.InEscapedClass);
    assert open == Fragment(Trim(o.prefix) + spec);
    Delims(LiteralOf(open).value, LiteralOf(Fragment(Trim(o.suffix))).value,
      LiteralOf(Fragment(Trim(o.subKeyPointer))).value)
  }

  /** The pattern `escapeRegex` as written builds reads back as the same
      literal delimiters as `ParamDelims` exactly when the trimmed prefix and
      specifier, the trimmed suffix and the trimmed sub-key pointer, each,
      hold none of the digits 0 to 7. */
  lemma ParamDelimsAsWritten(o: Options, specifier: Option<string>)
    ensures var spec := if specifier.Some? then Trim(specifier.value) else [];
      var d := ParamDelims(o, specifier);
      && (LiteralOf(EscapeRegex(Str(Trim(o.prefix))).s + EscapeRegex(Str(spec)).s) == Some(d.open)
          <==> OctalFree(Trim(o.prefix) + spec))
      && (LiteralOf(EscapeRegex(Str(Trim(o.suffix))).s) == Some(d.close) <==> OctalFree(Trim(o.suffix)))
      && (LiteralOf(EscapeRegex(Str(Trim(o.subKeyPointer))).s) == Some(d.sep) <==> OctalFree(Trim(o.subKeyPointer)))
  {
    var spec := if specifier.Some? then Trim(specifier.value) else [];
    EscapeAppend(Trim(o.prefix), spec, InRegexEscapedClass);
    EscapeRegexReadsBack(Trim(o.prefix) + spec);
    EscapeRegexReadsBack(Trim(o.suffix));
    EscapeRegexReadsBack(Trim(o.subKeyPointer));
  }

  /** `getFuncRegex`. */
  function FuncDelims(o: Options): Delims {
    ParamDelims(o, Some(o.funcSpecifier))
  }

  /** `getEscapeRegex`: a quote before the trimmed prefix and after the
      trimmed suffix. */
  function EscapeDelims(o: Options): Delims {
    ParamDelims(o.(prefix := "\"" + Trim(o.prefix), suffix := Trim(o.suffix) + "\""), Some(o.escapeSpecifier))
  }

  /** `getStringEscapeRegex`. */
  function StringEscapeDelims(o: Options): Delims {
    ParamDelims(o, Some(o.stringSpecifier))
  }

  /** The escape regex matches a quoted placeholder whose prefix carries the
      escape specifier. */
  lemma EscapeDelimsQuoted(o: Options)
    ensures EscapeDelims(o).open == "\"" + Trim(o.prefix) + Trim(o.escapeSpecifier)
    ensures EscapeDelims(o).close == Trim(o.suffix) + "\""
    ensures EscapeDelims(o).sep == Trim(o.subKeyPointer)
  {
    TrimQuoted(o.prefix);
    TrimQuoted(o.suffix);
  }

  /** Delimiters with white-space padding match without it: options such as
      `' {<!?#:  '` and `' :#?!>} '` give the delimiters `{<!?#:` and
      `:#?!>}`. */
  lemma PaddedDelimiters(o: Options, lead: string, open: string, trail: string, lead': string, close: string, trail': string)
    requires o.prefix == lead + open + trail && o.suffix == lead' + close + trail'
    requires AllSpace(lead) && AllSpace(trail) && AllSpace(lead') && AllSpace(trail')
    requires open != [] && !IsSpace(open[0]) && !IsSpace(open[|open| - 1])
    requires close != [] && !IsSpace(close[0]) && !IsSpace(close[|close| - 1])
    ensures ParamDelims(o, None).open == open && ParamDelims(o, None).close == close
  {
    TrimPadded(lead, open, trail);
    TrimPadded(lead', close, trail');
  }

  /** A match of the parameter regex is the trimmed prefix, the trimmed
      specifier, the capture group and the trimmed suffix, and the capture
      group, trimmed, is a path of words joined by the trimmed separator. */
  lemma ParamMatchShape(s: string, o: Options, specifier: Option<string>, p: Placeholder)
    requires IsMatchAt(s, Regex(ParamDelims(o, specifier)), p)
    ensures p.start <= p.bodyStart <= p.bodyEnd <= p.end <= |s|
    ensures s[p.start..p.end] == Trim(o.prefix) + (if specifier.Some? then Trim(specifier.value) else [])
      + s[p.bodyStart..p.bodyEnd] + Trim(o.suffix)
    ensures IsPath(Trim(s[p.bodyStart..p.bodyEnd]), Trim(o.subKeyPointer))
  {
    MatchPath(s, ParamDelims(o, specifier), p);
  }

  // ---------------------------------------------------------------------------
  // `getMatchSet`

  /** The trimmed capture of every match in `s`, in order. */
  function Paths(s: string, d: Delims): (r: seq<string>)
    ensures |r| == |Scan(s, Regex(d), 0)|
  {
    var ms := Scan(s, Regex(d), 0);
    seq(|ms|, k requires 0 <= k < |ms| => Trim(s[ms[k].bodyStart..ms[k].bodyEnd]))
  }

  function TrimParam(matched: string, param: string): string {
    Trim(param)
  }

  /** `getMatchSet(matches, paramRegex)`: each match text with the regex
      replaced by its trimmed capture, collected into a `Set`. */
  function GetMatchSet(matches: seq<string>, d: Delims): seq<string> {
    FromSeq(seq(|matches|, k requires 0 <= k < |matches| => Substitute(matches[k], Regex(d), TrimParam, 0)))
  }

  /** Applied to the match texts of a string, `getMatchSet` gives its
      trimmed placeholder paths, once each, in order of first occurrence;
      each is a path for the separator. */
  lemma MatchSetOfText(s: string, d: Delims)
    ensures GetMatchSet(MatchTexts(s, Regex(d)), d) == FromSeq(Paths(s, d))
    ensures NoDup(GetMatchSet(MatchTexts(s, Regex(d)), d))
    ensures forall x :: x in GetMatchSet(MatchTexts(s, Regex(d)), d) <==> x in Paths(s, d)
    ensures forall x :: x in Paths(s, d) ==> IsPath(x, d.sep)
  {
    var m := Regex(d);
    var ms := Scan(s, m, 0);
    var texts := MatchTexts(s, m);
    RegexLocal(d);
    var rescanned := seq(|texts|, k requires 0 <= k < |texts| => Substitute(texts[k], m, TrimParam, 0));
    forall k | 0 <= k < |ms|
      ensures rescanned[k] == Paths(s, d)[k]
      ensures IsPath(Paths(s, d)[k], d.sep)
    {
      RescanMatchText(s, m, ms[k], TrimParam);
      MatchPath(s, d, ms[k]);
    }
    assert rescanned == Paths(s, d);
    FromSeqOrder(Paths(s, d));
  }

  // ---------------------------------------------------------------------------
  // `getInterpolated`

  /** The callback of `getInterpolated`: the value of the trimmed path as
      text when `values` has it as an own key, otherwise the match itself
      under `keepAlive` and nothing without. */
  function Replacement(values: map<string, Doc>, keepAlive: bool, matched: string, param: string): string {
    var path := Trim(param);
    if path in values then ToText(values[path]) else if keepAlive then matched else []
  }

  function Lookup(values: map<string, Doc>, keepAlive: bool): (string, string) -> string {
    (matched: string, param: string) => Replacement(values, keepAlive, matched, param)
  }

  /** Some placeholder of `s` names a `null` value, whose `toString` throws. */
  predicate ReachesNull(s: string, d: Delims, values: map<string, Doc>) {
    exists k :: 0 <= k < |Paths(s, d)| && Paths(s, d)[k] in values && values[Paths(s, d)[k]] == Null
  }

  /** `getInterpolated(str, regex, values, keepAlive)`; `getInterpolatedFunc`
      has the same body. */
  function GetInterpolated(s: string, d: Delims, values: map<string, Doc>, keepAlive: bool): Result<string, Error> {
    if ReachesNull(s, d, values) then Err(TypeError)
    else Ok(Substitute(s, Regex(d), Lookup(values, keepAlive), 0))
  }

  predicate NoNull(values: map<string, Doc>) {
    forall k :: k in values ==> values[k] != Null
  }

  /** A string without placeholders is returned as it is. */
  lemma InterpolatedNoPlaceholder(s: string, d: Delims, values: map<string, Doc>, keepAlive: bool)
    requires !HasMatch(s, Regex(d))
    ensures GetInterpolated(s, d, values, keepAlive) == Ok(s)
  {
    assert Scan(s, Regex(d), 0) == [];
    assert s[0..] == s;
  }

  /** With `keepAlive`, placeholders whose paths `values` does not have stay
      as they are. */
  lemma InterpolatedKeepsUnknown(s: string, d: Delims, values: map<string, Doc>)
    requires forall k :: 0 <= k < |Paths(s, d)| ==> Paths(s, d)[k] !in values
    ensures GetInterpolated(s, d, values, true) == Ok(s)
  {
    var m := Regex(d);
    var rep := Lookup(values, true);
    var ms := Scan(s, m, 0);
    assert !ReachesNull(s, d, values);
    forall k | 0 <= k < |ms|
      ensures rep(s[ms[k].start..ms[k].end], s[ms[k].bodyStart..ms[k].bodyEnd]) == s[ms[k].start..ms[k].end]
    {
      assert Paths(s, d)[k] == Trim(s[ms[k].bodyStart..ms[k].bodyEnd]);
      KeptUnknown(values, s[ms[k].start..ms[k].end], s[ms[k].bodyStart..ms[k].bodyEnd]);
    }
    KeepAllIdentity(s, m, rep);
  }

  /** Under `keepAlive`, a placeholder whose path has no value is kept. */
  lemma KeptUnknown(values: map<string, Doc>, matched: string, param: string)
    requires Trim(param) !in values
    ensures Lookup(values, true)(matched, param) == matched
  {
  }

  lemma KeepAllIdentity(s: string, m: Matcher, rep: (string, string) -> string)
    requires Sticky(m)
    requires forall k :: 0 <= k < |Scan(s, m, 0)| ==>
      rep(s[Scan(s, m, 0)[k].start..Scan(s, m, 0)[k].end], s[Scan(s, m, 0)[k].bodyStart..Scan(s, m, 0)[k].bodyEnd])
        == s[Scan(s, m, 0)[k].start..Scan(s, m, 0)[k].end]
    ensures Substitute(s, m, rep, 0) == s
  {
    var ms := Scan(s, m, 0);
    forall p | p in ms
      ensures rep(s[p.start..p.end], s[p.bodyStart..p.bodyEnd]) == s[p.start..p.end]
    {
      var k :| 0 <= k < |ms| && ms[k] == p;
    }
    SubstituteIdentity(s, m, rep, 0);
    assert s[0..] == s;
  }

  /** Values without `null` never make `getInterpolated` throw. */
  lemma InterpolatedSucceeds(s: string, d: Delims, values: map<string, Doc>, keepAlive: bool)
    requires NoNull(values)
    ensures GetInterpolated(s, d, values, keepAlive).Ok?
  {
  }

  /** The text of one match holds that one placeholder. */
  lemma PlaceholderPaths(s: string, d: Delims, p: Placeholder)
    requires IsMatchAt(s, Regex(d), p)
    ensures p.start <= p.bodyStart <= p.bodyEnd <= p.end <= |s|
    ensures Paths(s[p.start..p.end], d) == [Trim(s[p.bodyStart..p.bodyEnd])]
  {
    RegexLocal(d);
    RescanMatchScan(s, Regex(d), p);
  }

  /** `getInterpolated` on the text of one match: the callback applied to
      that match, unless its path names `null`. */
  lemma InterpolatedMatchText(s: string, d: Delims, p: Placeholder, values: map<string, Doc>, keepAlive: bool)
    requires IsMatchAt(s, Regex(d), p)
    ensures p.start <= p.bodyStart <= p.bodyEnd <= p.end <= |s|
    ensures var x := s[p.start..p.end]; var path := Trim(s[p.bodyStart..p.bodyEnd]);
      GetInterpolated(x, d, values, keepAlive) ==
        if path in values && values[path] == Null then Err(TypeError)
        else Ok(Replacement(values, keepAlive, x, s[p.bodyStart..p.bodyEnd]))
  {
    var x := s[p.start..p.end];
    var path := Trim(s[p.bodyStart..p.bodyEnd]);
    PlaceholderPaths(s, d, p);
    ReachesNullOne(x, d, path, values);
    RegexLocal(d);
    RescanMatchText(s, Regex(d), p, Lookup(values, keepAlive));
    assert Substitute(x, Regex(d), Lookup(values, keepAlive), 0) == Replacement(values, keepAlive, x, s[p.bodyStart..p.bodyEnd]);
  }

  lemma ReachesNullOne(x: string, d: Delims, path: string, values: map<string, Doc>)
    requires Paths(x, d) == [path]
    ensures ReachesNull(x, d, values) <==> path in values && values[path] == Null
  {
    if path in values && values[path] == Null {
      assert Paths(x, d)[0] == path;
    }
  }

  /** A text that is one placeholder is replaced by the value of its
      trimmed path, by itself under `keepAlive` when there is no value, and
      by nothing otherwise. */
  lemma InterpolatedPlaceholder(s: string, d: Delims, p: Placeholder, values: map<string, Doc>, keepAlive: bool)
    requires IsMatchAt(s, Regex(d), p)
    ensures p.start <= p.bodyStart <= p.bodyEnd <= p.end <= |s|
    ensures var x := s[p.start..p.end]; var path := Trim(s[p.bodyStart..p.bodyEnd]);
      GetInterpolated(x, d, values, keepAlive) ==
        if path in values && values[path] == Null then Err(TypeError)
        else if path in values then Ok(ToText(values[path]))
        else if keepAlive then Ok(x)
        else Ok([])
  {
    InterpolatedMatchText(s, d, p, values, keepAlive);
  }

  // ---------------------------------------------------------------------------
  // The escape forms

  function OmitParam(o: Options): (string, string) -> string {
    (matched: string, param: string) => o.prefix + Trim(param) + o.suffix
  }

  /** `omitEscapeRegex(str, escapeRegex, opt)`: every escape form becomes the
      untrimmed prefix, the trimmed path and the untrimmed suffix. */
  function OmitEscapes(s: string, o: Options): string {
    Substitute(s, Regex(EscapeDelims(o)), OmitParam(o), 0)
  }

  function CleanParam(o: Options): (string, string) -> string {
    (matched: string, param: string) =>
      ReplaceFirst(matched, Trim(o.prefix) + Trim(o.escapeSpecifier), Trim(o.prefix))
  }

  /** `cleanEscapes(str, escapeRegex, opt)`: in every escape form, the first
      occurrence of prefix plus specifier becomes the prefix. */
  function CleanEscapes(s: string, o: Options): string {
    Substitute(s, Regex(EscapeDelims(o)), CleanParam(o), 0)
  }

  function StringParam(o: Options): (string, string) -> string {
    (matched: string, param: string) =>
      o.stringSpecifier + Trim(o.prefix) + Trim(param) + Trim(o.suffix) + o.stringSpecifier
  }

  /** `cleanStringEscapes(str, escapeRegex, opt)`: every string escape form
      becomes a plain placeholder between two string specifiers. */
  function CleanStringEscapes(s: string, o: Options): string {
    Substitute(s, Regex(StringEscapeDelims(o)), StringParam(o), 0)
  }

  /** `omitEscapeRegex` drops the quotes and the escape specifier of an
      escape form and leaves prefix, path and suffix. */
  lemma OmitEscapeForm(s: string, o: Options, p: Placeholder)
    requires IsMatchAt(s, Regex(EscapeDelims(o)), p)
    ensures p.start <= p.bodyStart <= p.bodyEnd <= p.end <= |s|
    ensures s[p.start..p.end] == "\"" + Trim(o.prefix) + Trim(o.escapeSpecifier) + s[p.bodyStart..p.bodyEnd] + Trim(o.suffix) + "\""
    ensures OmitEscapes(s[p.start..p.end], o) == o.prefix + Trim(s[p.bodyStart..p.bodyEnd]) + o.suffix
    ensures IsPath(Trim(s[p.bodyStart..p.bodyEnd]), Trim(o.subKeyPointer))
  {
    var d := EscapeDelims(o);
    EscapeDelimsQuoted(o);
    MatchPath(s, d, p);
    RegexLocal(d);
    RescanMatchText(s, Regex(d), p, OmitParam(o));
  }

  /** `cleanEscapes` keeps the quotes and drops only the escape specifier,
      when the prefix plus specifier does not itself start with a quote and
      the prefix holds no `$` pattern of `replace`. */
  lemma CleanEscapeForm(s: string, o: Options, p: Placeholder)
    requires IsMatchAt(s, Regex(EscapeDelims(o)), p)
    requires var pat := Trim(o.prefix) + Trim(o.escapeSpecifier); pat == [] || pat[0] != '"'
    requires NoDollarPattern(Trim(o.prefix))
    ensures p.start <= p.bodyStart <= p.bodyEnd <= p.end <= |s|
    ensures CleanEscapes(s[p.start..p.end], o) == "\"" + Trim(o.prefix) + s[p.bodyStart..p.bodyEnd] + Trim(o.suffix) + "\""
  {
    CleanEscapeText(s, o, p);
    CleanQuoted(s[p.start..p.end], CleanEscapes(s[p.start..p.end], o),
      Trim(o.prefix), Trim(o.escapeSpecifier), s[p.bodyStart..p.bodyEnd], Trim(o.suffix));
  }

  /** The first `prefix + spec` of a quoted escape form, replaced by `prefix`. */
  lemma CleanQuoted(x: string, cleaned: string, prefix: string, spec: string, body: string, suffix: string)
    requires var pat := prefix + spec; pat == [] || pat[0] != '"'
    requires NoDollarPattern(prefix)
    requires x == "\"" + (prefix + spec) + (body + suffix + "\"")
    requires cleaned == ReplaceFirst(x, prefix + spec, prefix)
    ensures cleaned == "\"" + prefix + body + suffix + "\""
  {
    ReplaceAfterQuote(prefix, spec, body + suffix + "\"");
    Ungroup("\"", prefix, body, suffix, "\"");
  }

  lemma Regroup(a: string, b: string, c: string, d: string, e: string, f: string)
    ensures a + b + c + d + e + f == a + (b + c) + (d + e + f)
  {
  }

  lemma Ungroup(a: string, b: string, c: string, d: string, e: string)
    ensures a + b + (c + d + e) == a + b + c + d + e
  {
  }

  /** The text of an escape form, and what `cleanEscapes` makes of it. */
  lemma CleanEscapeText(s: string, o: Options, p: Placeholder)
    requires IsMatchAt(s, Regex(EscapeDelims(o)), p)
    ensures p.start <= p.bodyStart <= p.bodyEnd <= p.end <= |s|
    ensures var pat := Trim(o.prefix) + Trim(o.escapeSpecifier); var x := s[p.start..p.end];
      && x == "\"" + pat + (s[p.bodyStart..p.bodyEnd] + Trim(o.suffix) + "\"")
      && CleanEscapes(x, o) == ReplaceFirst(x, pat, Trim(o.prefix))
  {
    OmitEscapeForm(s, o, p);
    Regroup("\"", Trim(o.prefix), Trim(o.escapeSpecifier), s[p.bodyStart..p.bodyEnd], Trim(o.suffix), "\"");
    RegexLocal(EscapeDelims(o));
    RescanMatchText(s, Regex(EscapeDelims(o)), p, CleanParam(o));
  }

  /** Replacing `prefix + spec` by `prefix` in `"prefix spec tail`. */
  lemma ReplaceAfterQuote(prefix: string, spec: string, tail: string)
    requires var pat := prefix + spec; pat == [] || pat[0] != '"'
    requires NoDollarPattern(prefix)
    ensures ReplaceFirst("\"" + (prefix + spec) + tail, prefix + spec, prefix) == "\"" + prefix + tail
  {
    var pat := prefix + spec;
    var x := "\"" + pat + tail;
    assert x[1..] == pat + tail;
    assert pat <= x[1..];
    if pat == [] {
      assert pat <= x[0..];
      assert IndexOf(x, pat, 0) == Some(0);
      SubstitutionPlain(pat, x, 0, prefix);
      assert prefix == [];
    } else {
      assert !(pat <= x[0..]) by {
        assert x[0..][0] == '"';
      }
      assert IndexOf(x, pat, 0) == IndexOf(x, pat, 1);
      assert IndexOf(x, pat, 1) == Some(1);
      SubstitutionPlain(pat, x, 1, prefix);
      assert x[..1] == "\"";
      assert x[1 + |pat|..] == tail;
    }
  }

  /** `cleanStringEscapes` turns a string escape form into a placeholder
      quoted by the string specifier. */
  lemma CleanStringEscapeForm(s: string, o: Options, p: Placeholder)
    requires IsMatchAt(s, Regex(StringEscapeDelims(o)), p)
    ensures p.start <= p.bodyStart <= p.bodyEnd <= p.end <= |s|
    ensures s[p.start..p.end] == Trim(o.prefix) + Trim(o.stringSpecifier) + s[p.bodyStart..p.bodyEnd] + Trim(o.suffix)
    ensures CleanStringEscapes(s[p.start..p.end], o) ==
      o.stringSpecifier + Trim(o.prefix) + Trim(s[p.bodyStart..p.bodyEnd]) + Trim(o.suffix) + o.stringSpecifier
  {
    var d := StringEscapeDelims(o);
    MatchPath(s, d, p);
    RegexLocal(d);
    RescanMatchText(s, Regex(d), p, StringParam(o));
  }
}
