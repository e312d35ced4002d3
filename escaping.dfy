// Backslash-escaping of text that is spliced into a JavaScript regular
// expression, and how such a pattern fragment reads back as literal text.

module RegexSource {
  import opened Wrappers

  /** `s.replace(/[class]/g, '\\$&')`: a backslash before every character of
      the class, every other character copied. */
  function Escape(s: string, inClass: char -> bool): (r: string)
    ensures |r| >= |s|
  {
    if s == [] then []
    else (if inClass(s[0]) then ['\\', s[0]] else [s[0]]) + Escape(s[1..], inClass)
  }

  /** Drops the backslash of every escape pair. */
  function Unescape(r: string): string
    decreases |r|
  {
    if r == [] then []
    else if r[0] == '\\' && |r| >= 2 then [r[1]] + Unescape(r[2..])
    else [r[0]] + Unescape(r[1..])
  }

  /** The syntax characters of ECMAScript patterns. */
  predicate IsSyntaxChar(c: char) {
    c == '^' || c == '$' || c == '\\' || c == '.' || c == '*' || c == '+' || c == '?'
    || c == '(' || c == ')' || c == '[' || c == ']' || c == '{' || c == '}' || c == '|'
  }

  /** After a backslash, the characters that do not stand for themselves in a
      pattern with one capture group and no `u` flag: `\0` is NUL, `\1` a
      back-reference to the group, `\2` to `\7` legacy octal escapes; letters
      are counted here too, since several of them start class, control or hex
      escapes. */
  predicate IsSpecialAfterBackslash(c: char) {
    ('0' <= c <= '7') || ('a' <= c <= 'z') || ('A' <= c <= 'Z')
  }

  /** The text a pattern fragment matches when it is a sequence of plain
      characters and identity escapes; `None` for any other fragment. */
  function LiteralOf(p: string): Option<string>
    decreases |p|
  {
    if p == [] then Some([])
    else if p[0] == '\\' then
      if |p| < 2 || IsSpecialAfterBackslash(p[1]) then None
      else match LiteralOf(p[2..])
        case Some(rest) => Some([p[1]] + rest)
        case None => None
    else if IsSyntaxChar(p[0]) then None
    else match LiteralOf(p[1..])
      case Some(rest) => Some([p[0]] + rest)
      case None => None
  }

  // ---------------------------------------------------------------------------

  /** Escaping is undone by unescaping, provided the backslash itself is
      escaped. */
  lemma {:induction false} UnescapeEscape(s: string, inClass: char -> bool)
    requires inClass('\\')
    ensures Unescape(Escape(s, inClass)) == s
    decreases |s|
  {
    if s != [] {
      UnescapeEscape(s[1..], inClass);
      var r := Escape(s, inClass);
      if inClass(s[0]) {
        assert r[2..] == Escape(s[1..], inClass);
      } else {
        assert r[1..] == Escape(s[1..], inClass);
      }
    }
  }

  /** Text without class characters is left as it is. */
  lemma {:induction false} EscapeNothing(s: string, inClass: char -> bool)
    requires forall i :: 0 <= i < |s| ==> !inClass(s[i])
    ensures Escape(s, inClass) == s
    decreases |s|
  {
    if s != [] {
      EscapeNothing(s[1..], inClass);
    }
  }

  /** Escaping distributes over concatenation. */
  lemma {:induction false} EscapeAppend(a: string, b: string, inClass: char -> bool)
    ensures Escape(a + b, inClass) == Escape(a, inClass) + Escape(b, inClass)
    decreases |a|
  {
    if a != [] {
      assert (a + b)[1..] == a[1..] + b;
      EscapeAppend(a[1..], b, inClass);
    } else {
      assert a + b == b;
    }
  }

  /** `c` reads back as itself in an escaped text. */
  predicate ReadsBack(c: char, inClass: char -> bool) {
    if inClass(c) then !IsSpecialAfterBackslash(c) else !IsSyntaxChar(c)
  }

  /** A text escaped with a class that holds the backslash reads back as
      that text exactly when no character the class escapes is special after
      a backslash and no character it leaves alone is a syntax character. */
  lemma {:induction false} LiteralOfEscape(s: string, inClass: char -> bool)
    requires inClass('\\')
    ensures LiteralOf(Escape(s, inClass)) == Some(s) <==>
      forall i :: 0 <= i < |s| ==> ReadsBack(s[i], inClass)
    decreases |s|
  {
    if s != [] {
      LiteralOfEscape(s[1..], inClass);
      var r := Escape(s, inClass);
      var tail := Escape(s[1..], inClass);
      assert s == [s[0]] + s[1..];
      if inClass(s[0]) {
        assert r == ['\\', s[0]] + tail;
        assert r[2..] == tail;
      } else {
        assert r == [s[0]] + tail;
        assert r[1..] == tail;
      }
      assert LiteralOf(r) == Some(s) <==> ReadsBack(s[0], inClass) && LiteralOf(tail) == Some(s[1..]);
      assert (forall i :: 0 <= i < |s| ==> ReadsBack(s[i], inClass)) <==>
        ReadsBack(s[0], inClass) && forall i :: 0 <= i < |s[1..]| ==> ReadsBack(s[1..][i], inClass);
    }
  }
}
