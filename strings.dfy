/** The pieces of the JavaScript string runtime that the interpolation engine
    leans on: the `\s` and `\w` character classes, `trim()`, `indexOf`,
    `split` and `replace` with a string pattern, and `Number.prototype.toString`
    for integers. */
module Strings {
  import opened Wrappers

  /** White space as `\s` and `trim()` see it: WhiteSpace and LineTerminator
      of ECMA-262 (tab, vertical tab, form feed, the line terminators, the
      byte order mark and the Unicode space separators). */
  predicate IsSpace(c: char) {
    c == '\t' || c == '\n' || c == '\U{B}' || c == '\U{C}' || c == '\r' ||
    c == ' ' || c == '\U{A0}' || c == '\U{1680}' || ('\U{2000}' <= c <= '\U{200A}') ||
    c == '\U{2028}' || c == '\U{2029}' || c == '\U{202F}' || c == '\U{205F}' ||
    c == '\U{3000}' || c == '\U{FEFF}'
  }

  /** A character of the regular-expression class `\w`. */
  predicate IsWordChar(c: char) {
    ('a' <= c <= 'z') || ('A' <= c <= 'Z') || ('0' <= c <= '9') || c == '_'
  }

  lemma WordCharIsNotSpace(c: char)
    requires IsWordChar(c)
    ensures !IsSpace(c)
  {
  }

  predicate AllSpace(s: string) {
    forall i :: 0 <= i < |s| ==> IsSpace(s[i])
  }

  predicate AllWord(s: string) {
    forall i :: 0 <= i < |s| ==> IsWordChar(s[i])
  }

  /** Length of the white-space run at position `i` of `s`: the greedy `\s*`. */
  function SpacesAt(s: string, i: nat): (n: nat)
    requires i <= |s|
    ensures i + n <= |s|
    decreases |s| - i
  {
    if i == |s| || !IsSpace(s[i]) then 0 else 1 + SpacesAt(s, i + 1)
  }

  /** Length of the word-character run at position `i` of `s`: the greedy
      `\w+` when it is positive. */
  function WordsAt(s: string, i: nat): (n: nat)
    requires i <= |s|
    ensures i + n <= |s|
    decreases |s| - i
  {
    if i == |s| || !IsWordChar(s[i]) then 0 else 1 + WordsAt(s, i + 1)
  }

  /** `SpacesAt` measures the whole run: white space up to a character that
      is not white space, or up to the end. */
  lemma {:induction false} SpacesAtRun(s: string, i: nat)
    requires i <= |s|
    ensures forall j :: i <= j < i + SpacesAt(s, i) ==> IsSpace(s[j])
    ensures i + SpacesAt(s, i) == |s| || !IsSpace(s[i + SpacesAt(s, i)])
    decreases |s| - i
  {
    if i < |s| && IsSpace(s[i]) {
      SpacesAtRun(s, i + 1);
    }
  }

  lemma {:induction false} WordsAtRun(s: string, i: nat)
    requires i <= |s|
    ensures forall j :: i <= j < i + WordsAt(s, i) ==> IsWordChar(s[j])
    ensures i + WordsAt(s, i) == |s| || !IsWordChar(s[i + WordsAt(s, i)])
    decreases |s| - i
  {
    if i < |s| && IsWordChar(s[i]) {
      WordsAtRun(s, i + 1);
    }
  }

  /** A run of white space that stops at a character that is not white space
      (or at the end) is the one `SpacesAt` measures. */
  lemma SpacesAtExactly(s: string, i: nat, n: nat)
    requires i + n <= |s| && forall j :: i <= j < i + n ==> IsSpace(s[j])
    requires i + n == |s| || !IsSpace(s[i + n])
    ensures SpacesAt(s, i) == n
  {
    SpacesAtRun(s, i);
  }

  lemma WordsAtExactly(s: string, i: nat, n: nat)
    requires i + n <= |s| && forall j :: i <= j < i + n ==> IsWordChar(s[j])
    requires i + n == |s| || !IsWordChar(s[i + n])
    ensures WordsAt(s, i) == n
  {
    WordsAtRun(s, i);
  }

  /** A white-space run reaches at least as far as any white space before
      the first other character. */
  lemma SpacesAtLeast(s: string, i: nat, n: nat)
    requires i + n <= |s| && forall j :: i <= j < i + n ==> IsSpace(s[j])
    ensures n <= SpacesAt(s, i)
  {
    SpacesAtRun(s, i);
  }

  lemma WordsAtLeast(s: string, i: nat, n: nat)
    requires i + n <= |s| && forall j :: i <= j < i + n ==> IsWordChar(s[j])
    ensures n <= WordsAt(s, i)
  {
    WordsAtRun(s, i);
  }

  /** Length of the white-space run at the end of `s`. */
  function TrailingSpace(s: string): (n: nat)
    ensures n <= |s| && AllSpace(s[|s| - n..])
    ensures n == |s| || !IsSpace(s[|s| - n - 1])
  {
    if s == [] || !IsSpace(s[|s| - 1]) then 0 else 1 + TrailingSpace(s[..|s| - 1])
  }

  /** `String.prototype.trim`. */
  function Trim(s: string): string {
    var t := s[SpacesAt(s, 0)..];
    t[..|t| - TrailingSpace(t)]
  }

  /** What `trim()` removes is white space at either end, and what it keeps
      starts and ends with a character that is not white space. */
  lemma TrimShape(s: string)
    ensures exists a, b :: 0 <= a <= b <= |s| && Trim(s) == s[a..b] && AllSpace(s[..a]) && AllSpace(s[b..])
    ensures Trim(s) == [] || (!IsSpace(Trim(s)[0]) && !IsSpace(Trim(s)[|Trim(s)| - 1]))
    ensures Trim(s) == [] <==> AllSpace(s)
  {
    var a := SpacesAt(s, 0);
    SpacesAtRun(s, 0);
    var t := s[a..];
    var b := a + |t| - TrailingSpace(t);
    assert Trim(s) == s[a..b];
    assert s[b..] == t[|t| - TrailingSpace(t)..];
    if Trim(s) == [] {
      assert s == s[..a] + s[b..];
      assert AllSpace(s);
    }
  }

  /** What `trim()` keeps neither starts nor ends with white space. */
  lemma TrimEnds(s: string)
    ensures Trim(s) == [] || (!IsSpace(Trim(s)[0]) && !IsSpace(Trim(s)[|Trim(s)| - 1]))
  {
    TrimShape(s);
  }

  /** A quote put before or after a trimmed text survives `trim()`. */
  lemma TrimQuoted(s: string)
    ensures Trim("\"" + Trim(s)) == "\"" + Trim(s)
    ensures Trim(Trim(s) + "\"") == Trim(s) + "\""
  {
    TrimEnds(s);
    QuoteIsNotSpace();
    var p := Trim(s);
    assert [] + ("\"" + p) + [] == "\"" + p;
    TrimPadded([], "\"" + p, []);
    assert [] + (p + "\"") + [] == p + "\"";
    TrimPadded([], p + "\"", []);
  }

  lemma QuoteIsNotSpace()
    ensures !IsSpace('"')
  {
  }

  /** Trimming white-space padding around a text that neither starts nor ends
      with white space gives back that text. */
  lemma TrimPadded(lead: string, core: string, trail: string)
    requires AllSpace(lead) && AllSpace(trail)
    requires core != [] && !IsSpace(core[0]) && !IsSpace(core[|core| - 1])
    ensures Trim(lead + core + trail) == core
  {
    var s := lead + core + trail;
    assert s[|lead|] == core[0];
    SpacesAtExactly(s, 0, |lead|);
    var t := s[|lead|..];
    assert t == core + trail;
    TrailingRun(core, trail);
  }

  lemma {:induction false} TrailingRun(rest: string, trail: string)
    requires AllSpace(trail) && (rest == [] || !IsSpace(rest[|rest| - 1]))
    ensures TrailingSpace(rest + trail) == |trail|
  {
    if trail != [] {
      assert (rest + trail)[..|rest + trail| - 1] == rest + trail[..|trail| - 1];
      TrailingRun(rest, trail[..|trail| - 1]);
    } else {
      assert rest + trail == rest;
    }
  }

  /** `s.indexOf(p, i)`: the first position at or after `i` where `p` occurs. */
  function IndexOf(s: string, p: string, i: nat): (r: Option<nat>)
    requires i <= |s|
    ensures r.Some? ==> i <= r.value <= |s| && p <= s[r.value..]
    ensures r.Some? ==> forall j :: i <= j < r.value ==> !(p <= s[j..])
    ensures r.None? ==> forall j :: i <= j <= |s| ==> !(p <= s[j..])
    decreases |s| - i
  {
    if p <= s[i..] then Some(i) else if i == |s| then None else IndexOf(s, p, i + 1)
  }

  /** The one-character strings of `s`, which is what `split('')` returns. */
  function Chars(s: string): (r: seq<string>)
    ensures |r| == |s| && forall i :: 0 <= i < |s| ==> r[i] == [s[i]]
  {
    if s == [] then [] else [[s[0]]] + Chars(s[1..])
  }

  /** `s.split(sep)` for a non-empty string separator. */
  function SplitOn(s: string, sep: string): seq<string>
    requires sep != []
    decreases |s|
  {
    match IndexOf(s, sep, 0)
    case Some(k) => [s[..k]] + SplitOn(s[k + |sep|..], sep)
    case None => [s]
  }

  /** `String.prototype.split` with a string separator. */
  function Split(s: string, sep: string): seq<string> {
    if sep == [] then Chars(s) else SplitOn(s, sep)
  }

  /** `Array.prototype.join`: the inverse of `Split`. */
  function Join(parts: seq<string>, sep: string): string {
    if parts == [] then []
    else if |parts| == 1 then parts[0]
    else parts[0] + sep + Join(parts[1..], sep)
  }

  /** Splitting and joining with the same separator gives the text back, and
      no piece of a split contains the separator. */
  lemma {:induction false} SplitJoin(s: string, sep: string)
    ensures Join(Split(s, sep), sep) == s
    ensures sep != [] ==> forall i, j :: 0 <= i < |Split(s, sep)| && 0 <= j <= |Split(s, sep)[i]| ==> !(sep <= Split(s, sep)[i][j..])
  {
    if sep == [] {
      CharsJoin(s);
    } else {
      SplitOnJoin(s, sep);
    }
  }

  lemma {:induction false} CharsJoin(s: string)
    ensures Join(Chars(s), []) == s
    decreases |s|
  {
    if |s| > 1 {
      CharsJoin(s[1..]);
      assert Chars(s)[1..] == Chars(s[1..]);
      assert s == [s[0]] + s[1..];
    }
  }

  lemma {:induction false} SplitOnJoin(s: string, sep: string)
    requires sep != []
    ensures Join(SplitOn(s, sep), sep) == s && |SplitOn(s, sep)| >= 1
    ensures forall i, j :: 0 <= i < |SplitOn(s, sep)| && 0 <= j <= |SplitOn(s, sep)[i]| ==> !(sep <= SplitOn(s, sep)[i][j..])
    decreases |s|
  {
    var parts := SplitOn(s, sep);
    match IndexOf(s, sep, 0)
    case None =>
      assert parts == [s];
    case Some(k) =>
      var rest := s[k + |sep|..];
      SplitOnJoin(rest, sep);
      assert parts == [s[..k]] + SplitOn(rest, sep);
      SplitFirstPiece(s, sep, k);
      assert s == s[..k] + sep + rest by {
        assert s[k..k + |sep|] == sep;
      }
  }

  /** The text before the first occurrence of a separator does not contain it. */
  lemma SplitFirstPiece(s: string, sep: string, k: nat)
    requires sep != []
    requires IndexOf(s, sep, 0) == Some(k)
    ensures forall j :: 0 <= j <= k ==> !(sep <= s[..k][j..])
  {
    forall j | 0 <= j <= k ensures !(sep <= s[..k][j..]) {
      assert s[..k][j..] <= s[j..];
    }
  }

  /** `GetSubstitution` of ECMA-262 for a string pattern (no capture groups):
      `$$`, `$&`, `` $` `` and `$'` are expanded, every other `$` is literal. */
  function Substitution(matched: string, str: string, position: nat, replacement: string): string
    requires position + |matched| <= |str|
    decreases |replacement|
  {
    if replacement == [] then []
    else if replacement[0] == '$' && |replacement| >= 2 then
      var c := replacement[1];
      var rest := Substitution(matched, str, position, replacement[2..]);
      if c == '$' then "$" + rest
      else if c == '&' then matched + rest
      else if c == '`' then str[..position] + rest
      else if c == '\'' then str[position + |matched|..] + rest
      else "$" + Substitution(matched, str, position, replacement[1..])
    else [replacement[0]] + Substitution(matched, str, position, replacement[1..])
  }

  /** The characters that make a `$` pattern when they follow a `$`. */
  predicate IsPatternChar(c: char) {
    c == '$' || c == '&' || c == '`' || c == '\''
  }

  /** No `$` in `r` starts one of the patterns `$$`, `$&`, `` $` `` or `$'`. */
  predicate NoDollarPattern(r: string) {
    forall i :: 0 <= i < |r| - 1 && r[i] == '$' ==> !IsPatternChar(r[i + 1])
  }

  lemma NoDollarPatternTail(r: string)
    requires r != [] && NoDollarPattern(r)
    ensures NoDollarPattern(r[1..])
  {
    forall i | 0 <= i < |r[1..]| - 1 && r[1..][i] == '$'
      ensures !IsPatternChar(r[1..][i + 1])
    {
      assert r[i + 1] == '$';
    }
  }

  /** A replacement without a `$` pattern is inserted as it is. */
  lemma {:induction false} SubstitutionPlain(matched: string, str: string, position: nat, replacement: string)
    requires position + |matched| <= |str|
    requires NoDollarPattern(replacement)
    ensures Substitution(matched, str, position, replacement) == replacement
    decreases |replacement|
  {
    if replacement != [] {
      NoDollarPatternTail(replacement);
      SubstitutionPlain(matched, str, position, replacement[1..]);
      if replacement[0] == '$' && |replacement| >= 2 {
        assert !IsPatternChar(replacement[1]);
      }
      assert replacement == [replacement[0]] + replacement[1..];
    }
  }

  /** `s.replace(pattern, replacement)` with a string pattern: only the first
      occurrence is replaced. */
  function ReplaceFirst(s: string, pattern: string, replacement: string): (r: string)
    ensures IndexOf(s, pattern, 0).None? ==> r == s
  {
    match IndexOf(s, pattern, 0)
    case None => s
    case Some(k) => s[..k] + Substitution(pattern, s, k, replacement) + s[k + |pattern|..]
  }

  function DigitChar(d: nat): char
    requires d < 10
  {
    ['0', '1', '2', '3', '4', '5', '6', '7', '8', '9'][d]
  }

  function NatToString(n: nat): (r: string)
    ensures r != [] && forall i :: 0 <= i < |r| ==> '0' <= r[i] <= '9'
    ensures |r| > 1 ==> r[0] != '0'
  {
    if n < 10 then [DigitChar(n)] else NatToString(n / 10) + [DigitChar(n % 10)]
  }

  /** `Number.prototype.toString` on an integer. */
  function IntToString(n: int): string {
    if n < 0 then "-" + NatToString(-n) else NatToString(n)
  }

  /** The decimal text that `NatToString` produces denotes the number. */
  function DigitsValue(s: string): nat
    requires forall i :: 0 <= i < |s| ==> '0' <= s[i] <= '9'
  {
    if s == [] then 0 else DigitsValue(s[..|s| - 1]) * 10 + (s[|s| - 1] as int - '0' as int)
  }

  lemma {:induction false} NatToStringValue(n: nat)
    ensures DigitsValue(NatToString(n)) == n
  {
    var r := NatToString(n);
    if n >= 10 {
      NatToStringValue(n / 10);
      assert r[..|r| - 1] == NatToString(n / 10);
    }
  }
}
