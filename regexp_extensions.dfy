// lib/regexp-extensions: `RegexEscaped`, and `nonStickyTest`, a `test` that
// does not depend on where the last search of a global regex stopped.  The
// regexes of this model are the placeholder regexes, so a `GlobalRegex` is
// built from the delimiters it matches.

module RegexExtensions {
  import opened Wrappers
  import opened Strings
  import opened Documents
  import opened RegexSource
  import opened Placeholders

  /** The character class of `RegexEscaped`; `\-` is a literal `-` here. */
  predicate InEscapedClass(c: char) {
    c == '\\' || c == '/' || c == '|' || c == '#' || c == '<' || c == '>' || c == '{' || c == '}'
    || c == '(' || c == ')' || c == '[' || c == ']' || c == '^' || c == '$' || c == '+' || c == '-'
    || c == '*' || c == '?' || c == ',' || c == '.' || c == ':' || c == '!' || c == '%'
  }

  /** Every character reads back as itself once escaped with this class. */
  lemma EscapedClassReadsBack()
    ensures forall c :: ReadsBack(c, InEscapedClass)
  {
  }

  /** `RegexEscaped(str)`: a string is trimmed and then escaped; any other
      value is given back. */
  function RegexEscaped(v: Doc): (r: Doc)
    ensures !v.Str? ==> r == v
    ensures v.Str? ==> r.Str? && Unescape(r.s) == Trim(v.s)
    ensures v.Str? ==> LiteralOf(r.s) == Some(Trim(v.s))
  {
    if v.Str? then
      var t := Trim(v.s);
      UnescapeEscape(t, InEscapedClass);
      EscapedClassReadsBack();
      LiteralOfEscape(t, InEscapedClass);
      Str(Escape(t, InEscapedClass))
    else v
  }

  /** A string without special characters comes back trimmed. */
  lemma RegexEscapedPlain(s: string)
    requires forall i :: 0 <= i < |Trim(s)| ==> !InEscapedClass(Trim(s)[i])
    ensures RegexEscaped(Str(s)) == Str(Trim(s))
  {
    EscapeNothing(Trim(s), InEscapedClass);
  }

  /** A JavaScript `RegExp` with the global flag: the pattern and the
      position `lastIndex` where the next search starts. */
  class GlobalRegex {
    const source: Delims
    var lastIndex: nat
    var hasNonStickyTest: bool

    constructor (source: Delims)
      ensures this.source == source && lastIndex == 0 && !hasNonStickyTest
    {
      this.source := source;
      lastIndex := 0;
      hasNonStickyTest := false;
    }

    /** `regex.test(str)`: searches from `lastIndex`; a match moves
        `lastIndex` to its end, a failure resets it to 0. */
    method Test(str: string) returns (r: bool)
      modifies this`lastIndex
      ensures r <==> old(lastIndex) <= |str| && FirstFrom(str, Regex(source), old(lastIndex)).Some?
      ensures lastIndex == if r then FirstFrom(str, Regex(source), old(lastIndex)).value.end else 0
    {
      if lastIndex > |str| {
        lastIndex := 0;
        return false;
      }
      var found := FirstFrom(str, Regex(source), lastIndex);
      if found.Some? {
        lastIndex := found.value.end;
        r := true;
      } else {
        lastIndex := 0;
        r := false;
      }
    }

    /** `regex.nonStickyTest(str)`: `test` from position 0, with `lastIndex`
        put back to 0 afterwards. */
    method NonStickyTest(str: string) returns (r: bool)
      requires hasNonStickyTest
      modifies this`lastIndex
      ensures r == HasMatch(str, Regex(source))
      ensures lastIndex == 0
    {
      lastIndex := 0;
      r := Test(str);
      lastIndex := 0;
    }

    /** `str.match(regex)`: every match, searching from 0; `lastIndex` ends
        at 0. */
    method MatchAll(str: string) returns (texts: seq<string>)
      modifies this`lastIndex
      ensures texts == MatchTexts(str, Regex(source))
      ensures lastIndex == 0
    {
      lastIndex := 0;
      texts := MatchTexts(str, Regex(source));
    }

    /** `str.replace(regex, callback)`: every match replaced, searching from
        0; `lastIndex` ends at 0. */
    method Replace(str: string, rep: (string, string) -> string) returns (r: string)
      modifies this`lastIndex
      ensures r == Substitute(str, Regex(source), rep, 0)
      ensures lastIndex == 0
    {
      lastIndex := 0;
      r := Substitute(str, Regex(source), rep, 0);
    }
  }

  /** `FixRegexStickyTest(regex)`: attaches `nonStickyTest` and changes
      nothing else. */
  method FixRegexStickyTest(regex: GlobalRegex)
    modifies regex`hasNonStickyTest
    ensures regex.hasNonStickyTest
  {
    regex.hasNonStickyTest := true;
  }
}
