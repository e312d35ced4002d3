/** The one placeholder shape that lib/main.js builds regular expressions for,
    `open \s* \w+ (?:sep \w+)* \s* close` with a capture group around
    everything between `open` and `close`, matched the way a JavaScript global
    regular expression matches it: the leftmost position that matches wins,
    and at a position the alternatives are tried in ECMA-262's order (greedy
    quantifiers, longest first, backtracking on failure). */
module Placeholders {
  import opened Wrappers
  import opened Strings

  /** The literal text of a placeholder regex: `open` is the trimmed prefix
      followed by the trimmed specifier, `close` the trimmed suffix and `sep`
      the trimmed sub-key pointer. */
  datatype Delims = Delims(open: string, close: string, sep: string)

  /** Where a partial match ends: the path words end at `pathEnd`, the
      capture group at `bodyEnd` and the match at `end`. */
  datatype Tail = Tail(pathEnd: nat, bodyEnd: nat, end: nat)

  /** A match found in a text: the match is `s[start..end]` and its capture
      group `s[bodyStart..bodyEnd]`. */
  datatype Placeholder = Placeholder(start: nat, bodyStart: nat, bodyEnd: nat, end: nat) {
    function Shift(k: nat): Placeholder {
      Placeholder(start + k, bodyStart + k, bodyEnd + k, end + k)
    }
  }

  /** `lit` occurs at position `j` of `s`. */
  predicate At(s: string, j: nat, lit: string) {
    j + |lit| <= |s| && forall x :: 0 <= x < |lit| ==> s[j + x] == lit[x]
  }

  lemma AtSlice(s: string, j: nat, lit: string)
    requires At(s, j, lit)
    ensures s[j..j + |lit|] == lit
  {
    var w := s[j..j + |lit|];
    assert forall x :: 0 <= x < |lit| ==> w[x] == s[j + x];
  }

  /** The text from an `open` to a `close` after it. */
  lemma DelimitedText(s: string, open: string, close: string, i: nat, c: nat)
    requires At(s, i, open) && At(s, c, close) && i + |open| <= c
    ensures s[i..c + |close|] == open + s[i + |open|..c] + close
  {
    AtSlice(s, i, open);
    AtSlice(s, c, close);
    assert s[i..c + |close|] == s[i..i + |open|] + s[i + |open|..c] + s[c..c + |close|];
  }

  /** `\s* close` at position `i` of `s`, the `\s*` taking `k`, then `k - 1`,
      ... then no white space. */
  function CloseFrom(s: string, close: string, i: nat, k: nat): (r: Option<Tail>)
    requires i + k <= |s|
    ensures r.Some? ==> r.value.pathEnd == i <= r.value.bodyEnd <= i + k
    ensures r.Some? ==> r.value.end == r.value.bodyEnd + |close| <= |s| && At(s, r.value.bodyEnd, close)
    decreases k
  {
    if At(s, i + k, close) then Some(Tail(i, i + k, i + k + |close|))
    else if k == 0 then None
    else CloseFrom(s, close, i, k - 1)
  }

  /** The trailing `\s* close` of the shape. */
  function Close(s: string, close: string, i: nat): (r: Option<Tail>)
    requires i <= |s|
  {
    CloseFrom(s, close, i, SpacesAt(s, i))
  }

  /** A `\w+` at position `i` of `s` of `n` characters or fewer (the longest
      tried first), followed by the rest of the shape. */
  function Words(s: string, d: Delims, i: nat, n: nat): (r: Option<Tail>)
    requires i <= |s| && 0 < n <= WordsAt(s, i)
    ensures r.Some? ==> i < r.value.pathEnd <= r.value.bodyEnd <= r.value.end <= |s|
    decreases |s| - i, 0, n
  {
    match Group(s, d, i + n)
    case Some(g) => Some(g)
    case None => if n == 1 then None else Words(s, d, i, n - 1)
  }

  /** The greedy `(?:sep \w+)*` at position `i` of `s`, followed by
      `\s* close`: one more repetition is tried first, then none. */
  function Group(s: string, d: Delims, i: nat): (r: Option<Tail>)
    requires i <= |s|
    ensures r.Some? ==> i <= r.value.pathEnd <= r.value.bodyEnd <= r.value.end <= |s|
    decreases |s| - i, 1, 0
  {
    var k := |d.sep|;
    if At(s, i, d.sep) && WordsAt(s, i + k) > 0 then
      match Words(s, d, i + k, WordsAt(s, i + k))
      case Some(w) => Some(w)
      case None => Close(s, d.close, i)
    else Close(s, d.close, i)
  }

  /** Where the path words of a match at `i` begin: after `open` and the
      leading white space, which `\s*` takes whole because `\w+` cannot start
      on white space. */
  function PathStart(s: string, d: Delims, i: nat): nat
    requires i + |d.open| <= |s|
  {
    i + |d.open| + SpacesAt(s, i + |d.open|)
  }

  /** The regex tried at position `i` of `s`, as a sticky regex would be. */
  function MatchAt(s: string, d: Delims, i: nat): (r: Option<Placeholder>)
    requires i <= |s|
    ensures r.Some? ==> r.value.start == i && r.value.bodyStart == i + |d.open| && At(s, i, d.open)
    ensures r.Some? ==> PathStart(s, d, i) < r.value.bodyEnd <= r.value.end <= |s|
  {
    if !At(s, i, d.open) then None
    else
      var a := PathStart(s, d, i);
      var n := WordsAt(s, a);
      if n == 0 then None
      else
        match Words(s, d, a, n)
        case Some(h) => Some(Placeholder(i, i + |d.open|, h.bodyEnd, h.end))
        case None => None
  }

  // ---------------------------------------------------------------------------
  // Global regular expressions: `exec`, `test`, `match` and `replace` try a
  // regex position after position.  They are written for any regex, given as
  // what it makes of a text at the text's start.

  type Matcher = string -> Option<Placeholder>

  /** A match lies inside the text it was tried on, starts where it was tried
      and is not empty. */
  predicate Fits(p: Placeholder, t: string) {
    p.start == 0 <= p.bodyStart <= p.bodyEnd <= p.end <= |t| && 0 < p.end
  }

  ghost predicate Sticky(m: Matcher) {
    forall t :: m(t).Some? ==> Fits(m(t).value, t)
  }

  /** The placeholder regex of `d`. */
  function Regex(d: Delims): (m: Matcher)
    ensures Sticky(m)
  {
    t => MatchAt(t, d, 0)
  }

  /** `p` is the match that `m` makes at `p.start` in `s`. */
  predicate IsMatchAt(s: string, m: Matcher, p: Placeholder) {
    p.start <= |s| && m(s[p.start..]).Some? && m(s[p.start..]).value.Shift(p.start) == p
  }

  /** What `exec` finds from `lastIndex == i`: the match at the first position
      at or after `i` where there is one. */
  function FirstFrom(s: string, m: Matcher, i: nat): (r: Option<Placeholder>)
    requires Sticky(m) && i <= |s|
    ensures r.Some? ==> i <= r.value.start <= r.value.bodyStart <= r.value.bodyEnd <= r.value.end <= |s|
    ensures r.Some? ==> r.value.start < r.value.end && IsMatchAt(s, m, r.value)
    ensures r.Some? ==> forall j :: i <= j < r.value.start ==> m(s[j..]).None?
    ensures r.None? ==> forall j :: i <= j <= |s| ==> m(s[j..]).None?
    decreases |s| - i
  {
    match m(s[i..])
    case Some(p) => Some(p.Shift(i))
    case None => if i == |s| then None else FirstFrom(s, m, i + 1)
  }

  /** `regex.test(s)` with `lastIndex` 0. */
  predicate HasMatch(s: string, m: Matcher)
    requires Sticky(m)
  {
    FirstFrom(s, m, 0).Some?
  }

  /** The matches a global `match` or `replace` visits from position `i` on;
      each search resumes where the previous match ended. */
  function Scan(s: string, m: Matcher, i: nat): (r: seq<Placeholder>)
    requires Sticky(m) && i <= |s|
    ensures forall k :: 0 <= k < |r| ==> i <= r[k].start < r[k].end <= |s| && IsMatchAt(s, m, r[k])
    ensures forall k :: 0 <= k < |r| ==> r[k].start <= r[k].bodyStart <= r[k].bodyEnd <= r[k].end
    ensures forall k :: 0 <= k < |r| - 1 ==> r[k].end <= r[k + 1].start
    decreases |s| - i
  {
    match FirstFrom(s, m, i)
    case None => []
    case Some(p) => [p] + Scan(s, m, p.end)
  }

  /** `s.match(regex)` on a global regex: the text of every match, or `null`
      (here the empty sequence) when there is none. */
  function MatchTexts(s: string, m: Matcher): seq<string>
    requires Sticky(m)
  {
    var ms := Scan(s, m, 0);
    seq(|ms|, k requires 0 <= k < |ms| => s[ms[k].start..ms[k].end])
  }

  /** `s.replace(regex, callback)` on a global regex, from position `i` on: the
      text between matches is copied and every match is replaced by
      `rep(match text, capture group)`. */
  function Substitute(s: string, m: Matcher, rep: (string, string) -> string, i: nat): string
    requires Sticky(m) && i <= |s|
    decreases |s| - i
  {
    match FirstFrom(s, m, i)
    case None => s[i..]
    case Some(p) => s[i..p.start] + rep(s[p.start..p.end], s[p.bodyStart..p.bodyEnd]) + Substitute(s, m, rep, p.end)
  }

  /** `test` says whether the regex matches at some position, and then the
      scan that `match` and `replace` make is not empty. */
  lemma HasMatchIff(s: string, m: Matcher)
    requires Sticky(m)
    ensures HasMatch(s, m) <==> exists j :: 0 <= j <= |s| && m(s[j..]).Some?
    ensures HasMatch(s, m) <==> Scan(s, m, 0) != []
  {
    if HasMatch(s, m) {
      var p := FirstFrom(s, m, 0).value;
      assert m(s[p.start..]).Some?;
    }
  }

  /** A `replace` whose callback gives every match back unchanged leaves the
      text as it was. */
  lemma {:induction false} SubstituteIdentity(s: string, m: Matcher, rep: (string, string) -> string, i: nat)
    requires Sticky(m) && i <= |s|
    requires forall p :: p in Scan(s, m, i) ==> rep(s[p.start..p.end], s[p.bodyStart..p.bodyEnd]) == s[p.start..p.end]
    ensures Substitute(s, m, rep, i) == s[i..]
    decreases |s| - i
  {
    match FirstFrom(s, m, i)
    case None =>
    case Some(p) =>
      assert Scan(s, m, i) == [p] + Scan(s, m, p.end);
      assert p in Scan(s, m, i);
      var x := s[p.start..p.end];
      assert rep(x, s[p.bodyStart..p.bodyEnd]) == x;
      SubstituteIdentity(s, m, rep, p.end);
      assert Substitute(s, m, rep, i) == s[i..p.start] + x + s[p.end..];
      assert s[i..] == s[i..p.start] + x + s[p.end..];
  }

  /** What `replace` produces depends on its callback only through the
      matches: the text between them is copied. */
  lemma {:induction false} SubstituteCongruent(s: string, m: Matcher, rep1: (string, string) -> string, rep2: (string, string) -> string, i: nat)
    requires Sticky(m) && i <= |s|
    requires forall p :: p in Scan(s, m, i) ==>
      rep1(s[p.start..p.end], s[p.bodyStart..p.bodyEnd]) == rep2(s[p.start..p.end], s[p.bodyStart..p.bodyEnd])
    ensures Substitute(s, m, rep1, i) == Substitute(s, m, rep2, i)
    decreases |s| - i
  {
    match FirstFrom(s, m, i)
    case None =>
    case Some(p) =>
      assert Scan(s, m, i) == [p] + Scan(s, m, p.end);
      SubstituteCongruent(s, m, rep1, rep2, p.end);
  }

  /** A regex whose match never depends on the text after it. */
  ghost predicate Local(m: Matcher) {
    forall t: string, L: nat :: L <= |t| && m(t).Some? && m(t).value.end <= L ==> m(t[..L]) == m(t)
  }

  /** Running a local regex over the text of one of its matches finds that
      match again, and nothing after it. */
  lemma RescanMatchText(s: string, m: Matcher, p: Placeholder, rep: (string, string) -> string)
    requires Sticky(m) && Local(m) && IsMatchAt(s, m, p)
    ensures p.start <= p.bodyStart <= p.bodyEnd <= p.end <= |s|
    ensures Substitute(s[p.start..p.end], m, rep, 0) == rep(s[p.start..p.end], s[p.bodyStart..p.bodyEnd])
  {
    var x := s[p.start..p.end];
    var q := RescanFirst(s, m, p);
    assert Substitute(x, m, rep, q.end) == [];
    assert x[q.start..q.end] == x && x[0..q.start] == [];
  }

  /** Rescanning the text of a match of a local regex finds that match and
      nothing else. */
  lemma RescanMatchScan(s: string, m: Matcher, p: Placeholder)
    requires Sticky(m) && Local(m) && IsMatchAt(s, m, p)
    ensures p.start <= p.bodyStart <= p.bodyEnd <= p.end <= |s|
    ensures var x := s[p.start..p.end]; var r := Scan(x, m, 0);
      |r| == 1 && r[0].start == 0 && r[0].end == |x| && x[r[0].bodyStart..r[0].bodyEnd] == s[p.bodyStart..p.bodyEnd]
  {
    var x := s[p.start..p.end];
    var q := RescanFirst(s, m, p);
    assert Scan(x, m, 0) == [q] + Scan(x, m, q.end);
  }

  /** The first search over the text of a match finds the whole text, and
      the search after it finds nothing. */
  lemma RescanFirst(s: string, m: Matcher, p: Placeholder) returns (q: Placeholder)
    requires Sticky(m) && Local(m) && IsMatchAt(s, m, p)
    ensures p.start <= p.bodyStart <= p.bodyEnd <= p.end <= |s|
    ensures var x := s[p.start..p.end];
      && q.start == 0 && q.end == |x| && FirstFrom(x, m, 0) == Some(q) && FirstFrom(x, m, q.end).None?
      && q.bodyStart <= q.bodyEnd <= |x| && x[q.bodyStart..q.bodyEnd] == s[p.bodyStart..p.bodyEnd]
  {
    var t := s[p.start..];
    q := m(t).value;
    var x := s[p.start..p.end];
    assert q.Shift(p.start) == p;
    SliceOfSuffix(s, p.start, 0, q.end);
    SliceOfSuffix(s, p.start, q.bodyStart, q.bodyEnd);
    assert x == t[..q.end];
    assert m(x) == m(t);
    assert x[0..] == x;
    assert x[|x|..] == [];
    assert m(x[|x|..]).None?;
    assert x[q.bodyStart..q.bodyEnd] == t[q.bodyStart..q.bodyEnd];
  }

  // ---------------------------------------------------------------------------
  // The shape of a placeholder

  /** `\w+ (?:sep \w+)*`: a path. */
  ghost predicate IsPath(p: string, sep: string)
    decreases |p|, 1
  {
    exists n :: 0 < n <= |p| && AllWord(p[..n]) && IsSepPath(p[n..], sep)
  }

  /** `(?:sep \w+)*`. */
  ghost predicate IsSepPath(q: string, sep: string)
    decreases |q|, 2
  {
    q == [] || (sep <= q && IsPath(q[|sep|..], sep))
  }

  /** Only white space between positions `j` and `c` of `s`. */
  predicate SpacesBetween(s: string, j: nat, c: nat) {
    j <= c <= |s| && forall x :: j <= x < c ==> IsSpace(s[x])
  }

  /** A placeholder starts at position `i` of `s`: `open`, white space up to
      `a`, a path from `a` to `b`, white space up to `c` and `close` at `c`. */
  ghost predicate PlaceholderAt(s: string, d: Delims, i: nat, a: nat, b: nat, c: nat) {
    && At(s, i, d.open) && SpacesBetween(s, i + |d.open|, a)
    && a <= b <= |s| && IsPath(s[a..b], d.sep)
    && SpacesBetween(s, b, c) && At(s, c, d.close)
  }

  /** A path starts and ends with a word character. */
  lemma {:induction false} PathEnds(p: string, sep: string)
    requires IsPath(p, sep)
    ensures p != [] && IsWordChar(p[0]) && IsWordChar(p[|p| - 1])
    decreases |p|, 1
  {
    var n :| 0 < n <= |p| && AllWord(p[..n]) && IsSepPath(p[n..], sep);
    assert p[0] == p[..n][0];
    if p[n..] == [] {
      assert p[|p| - 1] == p[..n][n - 1];
    } else {
      SepPathEnds(p[n..], sep);
      assert p[|p| - 1] == p[n..][|p[n..]| - 1];
    }
  }

  lemma {:induction false} SepPathEnds(q: string, sep: string)
    requires IsSepPath(q, sep) && q != []
    ensures IsWordChar(q[|q| - 1])
    decreases |q|, 2
  {
    var r := q[|sep|..];
    PathEnds(r, sep);
    assert q[|q| - 1] == r[|r| - 1];
  }

  lemma PathCons(s: string, sep: string, i: nat, n: nat, j: nat)
    requires 0 < n && i + n <= j <= |s| && (forall x :: i <= x < i + n ==> IsWordChar(s[x]))
    requires IsSepPath(s[i + n..j], sep)
    ensures IsPath(s[i..j], sep)
  {
    SliceParts(s, i, n, j);
    var w := s[i..i + n];
    assert forall x :: 0 <= x < n ==> w[x] == s[i + x];
    PathOf(s[i..j], sep, n);
  }

  lemma PathOf(p: string, sep: string, n: nat)
    requires 0 < n <= |p| && AllWord(p[..n]) && IsSepPath(p[n..], sep)
    ensures IsPath(p, sep)
  {
  }

  lemma SepPathOf(q: string, sep: string)
    requires |sep| <= |q| && q[..|sep|] == sep && IsPath(q[|sep|..], sep)
    ensures IsSepPath(q, sep)
  {
  }

  lemma SepPathCons(s: string, sep: string, i: nat, j: nat)
    requires At(s, i, sep) && i + |sep| <= j <= |s| && IsPath(s[i + |sep|..j], sep)
    ensures IsSepPath(s[i..j], sep)
  {
    SliceParts(s, i, |sep|, j);
    SepPathOf(s[i..j], sep);
  }

  lemma PathUncons(s: string, sep: string, i: nat, j: nat) returns (n: nat)
    requires i <= j <= |s| && IsPath(s[i..j], sep)
    ensures 0 < n && i + n <= j && (forall x :: i <= x < i + n ==> IsWordChar(s[x]))
    ensures IsSepPath(s[i + n..j], sep)
  {
    var p := s[i..j];
    n :| 0 < n <= |p| && AllWord(p[..n]) && IsSepPath(p[n..], sep);
    assert p[n..] == s[i + n..j];
    assert forall x :: i <= x < i + n ==> s[x] == p[..n][x - i];
  }

  lemma SepPathUncons(s: string, sep: string, i: nat, j: nat)
    requires i < j <= |s| && IsSepPath(s[i..j], sep)
    ensures At(s, i, sep) && i + |sep| <= j && IsPath(s[i + |sep|..j], sep)
  {
    SepPathHead(s[i..j], sep);
    SliceParts(s, i, |sep|, j);
  }

  /** The two parts of a slice cut at `k` are slices of the whole text. */
  lemma SliceParts(s: string, i: nat, k: nat, j: nat)
    requires i + k <= j <= |s|
    ensures s[i..j][..k] == s[i..i + k] && s[i..j][k..] == s[i + k..j]
  {
  }

  lemma SepPathHead(q: string, sep: string)
    requires IsSepPath(q, sep) && q != []
    ensures |sep| <= |q| && q[..|sep|] == sep && IsPath(q[|sep|..], sep)
  {
  }

  lemma SpacesBetweenAll(s: string, j: nat, c: nat)
    requires SpacesBetween(s, j, c)
    ensures AllSpace(s[j..c])
  {
    assert forall x :: 0 <= x < c - j ==> s[j..c][x] == s[j + x];
  }

  /** The text of a placeholder is `open`, its capture group and `close`, and
      the capture group, trimmed, is the path. */
  lemma PlaceholderText(s: string, d: Delims, i: nat, a: nat, b: nat, c: nat)
    requires PlaceholderAt(s, d, i, a, b, c)
    ensures i + |d.open| <= a && c + |d.close| <= |s|
    ensures s[i..c + |d.close|] == d.open + s[i + |d.open|..c] + d.close
    ensures Trim(s[i + |d.open|..c]) == s[a..b]
  {
    DelimitedText(s, d.open, d.close, i, c);
    PlaceholderTrim(s, d.sep, i + |d.open|, a, b, c);
  }

  lemma PlaceholderTrim(s: string, sep: string, o: nat, a: nat, b: nat, c: nat)
    requires SpacesBetween(s, o, a) && SpacesBetween(s, b, c) && a <= b && IsPath(s[a..b], sep)
    ensures Trim(s[o..c]) == s[a..b]
  {
    var path := s[a..b];
    PathEnds(path, sep);
    WordCharIsNotSpace(path[0]);
    WordCharIsNotSpace(path[|path| - 1]);
    SpacesBetweenAll(s, o, a);
    SpacesBetweenAll(s, b, c);
    assert s[o..c] == s[o..a] + path + s[b..c];
    TrimPadded(s[o..a], path, s[b..c]);
  }

  lemma CloseShape(s: string, close: string, i: nat)
    requires i <= |s| && Close(s, close, i).Some?
    ensures var h := Close(s, close, i).value;
      h.pathEnd == i && SpacesBetween(s, i, h.bodyEnd) && At(s, h.bodyEnd, close) && h.end == h.bodyEnd + |close|
  {
    SpacesAtRun(s, i);
  }

  /** What follows the path words of a partial match: white space, then
      `close`. */
  predicate TailShape(s: string, d: Delims, h: Tail) {
    SpacesBetween(s, h.pathEnd, h.bodyEnd) && At(s, h.bodyEnd, d.close) && h.end == h.bodyEnd + |d.close|
  }

  /** After the path words of a partial match come white space and `close`. */
  lemma {:induction false} GroupShape(s: string, d: Delims, i: nat)
    requires i <= |s| && Group(s, d, i).Some?
    ensures var h := Group(s, d, i).value;
      IsSepPath(s[i..h.pathEnd], d.sep) && TailShape(s, d, h)
    decreases |s| - i, 1
  {
    var k := |d.sep|;
    GroupStep(s, d, i);
    if Repeats(s, d, i) {
      WordsShape(s, d, i + k, WordsAt(s, i + k));
      GroupShapeRepeat(s, d, i, Words(s, d, i + k, WordsAt(s, i + k)).value);
    } else {
      GroupShapeClose(s, d, i);
    }
  }

  lemma GroupShapeRepeat(s: string, d: Delims, i: nat, w: Tail)
    requires At(s, i, d.sep) && i + |d.sep| < w.pathEnd <= |s|
    requires IsPath(s[i + |d.sep|..w.pathEnd], d.sep) && TailShape(s, d, w)
    ensures IsSepPath(s[i..w.pathEnd], d.sep) && TailShape(s, d, w)
  {
    SepPathCons(s, d.sep, i, w.pathEnd);
  }

  lemma GroupShapeClose(s: string, d: Delims, i: nat)
    requires i <= |s| && !Repeats(s, d, i) && Group(s, d, i).Some?
    ensures var h := Group(s, d, i).value;
      IsSepPath(s[i..h.pathEnd], d.sep) && TailShape(s, d, h)
  {
    GroupStep(s, d, i);
    CloseShape(s, d.close, i);
    assert s[i..i] == [];
  }

  lemma {:induction false} WordsShape(s: string, d: Delims, i: nat, n: nat)
    requires i <= |s| && 0 < n <= WordsAt(s, i) && Words(s, d, i, n).Some?
    ensures var h := Words(s, d, i, n).value;
      IsPath(s[i..h.pathEnd], d.sep) && TailShape(s, d, h)
    decreases |s| - i, 0, n
  {
    WordsStep(s, d, i, n);
    if Group(s, d, i + n).Some? {
      GroupShape(s, d, i + n);
      WordsAtRun(s, i);
      WordsShapeHit(s, d, i, n, Group(s, d, i + n).value);
    } else {
      WordsShape(s, d, i, n - 1);
    }
  }

  lemma WordsShapeHit(s: string, d: Delims, i: nat, n: nat, g: Tail)
    requires 0 < n && i + n <= g.pathEnd <= |s| && (forall x :: i <= x < i + n ==> IsWordChar(s[x]))
    requires IsSepPath(s[i + n..g.pathEnd], d.sep) && TailShape(s, d, g)
    ensures IsPath(s[i..g.pathEnd], d.sep) && TailShape(s, d, g)
  {
    PathCons(s, d.sep, i, n, g.pathEnd);
  }

  /** The greedy repetition of `Group` is taken: a separator, a word and the
      rest of the shape follow. */
  predicate Repeats(s: string, d: Delims, i: nat)
    requires i <= |s|
  {
    At(s, i, d.sep) && WordsAt(s, i + |d.sep|) > 0 && Words(s, d, i + |d.sep|, WordsAt(s, i + |d.sep|)).Some?
  }

  /** One step of `Group`: one more repetition when it leads to a match,
      otherwise the closing delimiter. */
  lemma GroupStep(s: string, d: Delims, i: nat)
    requires i <= |s|
    ensures Repeats(s, d, i) ==> Group(s, d, i) == Words(s, d, i + |d.sep|, WordsAt(s, i + |d.sep|))
    ensures !Repeats(s, d, i) ==> Group(s, d, i) == Close(s, d.close, i)
  {
  }

  /** A match is a placeholder: its path starts after `open` and the white
      space, and `close` follows its capture group. */
  lemma MatchShape(s: string, d: Delims, i: nat) returns (pathEnd: nat)
    requires i <= |s| && MatchAt(s, d, i).Some?
    ensures var p := MatchAt(s, d, i).value;
      PlaceholderAt(s, d, i, PathStart(s, d, i), pathEnd, p.bodyEnd) && p.end == p.bodyEnd + |d.close|
  {
    var a := PathStart(s, d, i);
    SpacesAtRun(s, i + |d.open|);
    WordsShape(s, d, a, WordsAt(s, a));
    pathEnd := Words(s, d, a, WordsAt(s, a)).value.pathEnd;
  }

  lemma {:induction false} CloseFromSome(s: string, close: string, i: nat, k: nat, j: nat)
    requires j <= k && i + k <= |s| && At(s, i + j, close)
    ensures CloseFrom(s, close, i, k).Some?
    decreases k
  {
    if !At(s, i + k, close) && k > j {
      CloseFromSome(s, close, i, k - 1, j);
    }
  }

  lemma {:induction false} WordsSome(s: string, d: Delims, i: nat, n: nat, j: nat)
    requires i <= |s| && 0 < j <= n <= WordsAt(s, i)
    requires Group(s, d, i + j).Some?
    ensures Words(s, d, i, n).Some?
    decreases n
  {
    if Group(s, d, i + n).None? && n > j {
      WordsSome(s, d, i, n - 1, j);
    }
  }

  lemma CloseComplete(s: string, close: string, i: nat, c: nat)
    requires i <= |s| && SpacesBetween(s, i, c) && At(s, c, close)
    ensures Close(s, close, i).Some?
  {
    SpacesAtLeast(s, i, c - i);
    CloseFromSome(s, close, i, SpacesAt(s, i), c - i);
  }

  /** The backtracking search finds a placeholder whenever there is one where
      it is tried. */
  lemma {:induction false} GroupComplete(s: string, d: Delims, i: nat, j: nat, c: nat)
    requires i <= j <= |s| && IsSepPath(s[i..j], d.sep) && SpacesBetween(s, j, c) && At(s, c, d.close)
    ensures Group(s, d, i).Some?
    decreases j - i, 2
  {
    if i == j {
      CloseComplete(s, d.close, i, c);
      GroupCompleteClose(s, d, i);
    } else {
      SepPathUncons(s, d.sep, i, j);
      WordsComplete(s, d, i + |d.sep|, j, c);
      GroupCompleteRepeat(s, d, i);
    }
  }

  lemma GroupCompleteClose(s: string, d: Delims, i: nat)
    requires i <= |s| && Close(s, d.close, i).Some?
    ensures Group(s, d, i).Some?
  {
    GroupStep(s, d, i);
  }

  lemma GroupCompleteRepeat(s: string, d: Delims, i: nat)
    requires i <= |s| && At(s, i, d.sep) && WordsAt(s, i + |d.sep|) > 0
    requires Words(s, d, i + |d.sep|, WordsAt(s, i + |d.sep|)).Some?
    ensures Group(s, d, i).Some?
  {
    GroupStep(s, d, i);
  }

  lemma {:induction false} WordsComplete(s: string, d: Delims, i: nat, j: nat, c: nat)
    requires i <= j <= |s| && IsPath(s[i..j], d.sep) && SpacesBetween(s, j, c) && At(s, c, d.close)
    ensures WordsAt(s, i) > 0 && Words(s, d, i, WordsAt(s, i)).Some?
    decreases j - i, 1
  {
    var n := PathUncons(s, d.sep, i, j);
    WordsAtLeast(s, i, n);
    GroupComplete(s, d, i + n, j, c);
    WordsSome(s, d, i, WordsAt(s, i), n);
  }

  lemma MatchComplete(s: string, d: Delims, i: nat, a: nat, b: nat, c: nat)
    requires PlaceholderAt(s, d, i, a, b, c)
    ensures MatchAt(s, d, i).Some?
  {
    PathEnds(s[a..b], d.sep);
    assert s[a..b][0] == s[a];
    WordCharIsNotSpace(s[a]);
    SpacesAtExactly(s, i + |d.open|, a - (i + |d.open|));
    assert PathStart(s, d, i) == a;
    WordsComplete(s, d, a, b, c);
    MatchAtSome(s, d, i, a);
  }

  /** The regex matches where `open` is followed by white space and a path
      that the rest of the shape follows. */
  lemma MatchAtSome(s: string, d: Delims, i: nat, a: nat)
    requires At(s, i, d.open) && PathStart(s, d, i) == a <= |s|
    requires WordsAt(s, a) > 0 && Words(s, d, a, WordsAt(s, a)).Some?
    ensures MatchAt(s, d, i).Some?
  {
  }

  /** The regex matches at a position exactly when a placeholder starts
      there. */
  lemma MatchAtIff(s: string, d: Delims, i: nat)
    requires i <= |s|
    ensures MatchAt(s, d, i).Some? <==> exists a, b, c :: PlaceholderAt(s, d, i, a, b, c)
  {
    if MatchAt(s, d, i).Some? {
      var b := MatchShape(s, d, i);
    }
    if a, b, c :| PlaceholderAt(s, d, i, a, b, c) {
      MatchComplete(s, d, i, a, b, c);
    }
  }

  // ---------------------------------------------------------------------------
  // What the regex makes of a text never depends on the text after the match.

  function Min(a: nat, b: nat): nat {
    if a < b then a else b
  }

  lemma AtTruncated(s: string, L: nat, j: nat, lit: string)
    requires L <= |s|
    ensures At(s[..L], j, lit) ==> At(s, j, lit)
    ensures At(s, j, lit) && j + |lit| <= L ==> At(s[..L], j, lit)
  {
    if j + |lit| <= L {
      assert s[..L][j..j + |lit|] == s[j..j + |lit|];
    }
  }

  lemma SpacesAtTruncated(s: string, L: nat, i: nat)
    requires i <= L <= |s|
    ensures SpacesAt(s[..L], i) == Min(SpacesAt(s, i), L - i)
  {
    SpacesAtRun(s, i);
    SpacesAtExactly(s[..L], i, Min(SpacesAt(s, i), L - i));
  }

  lemma WordsAtTruncated(s: string, L: nat, i: nat)
    requires i <= L <= |s|
    ensures WordsAt(s[..L], i) == Min(WordsAt(s, i), L - i)
  {
    WordsAtRun(s, i);
    WordsAtExactly(s[..L], i, Min(WordsAt(s, i), L - i));
  }

  lemma CloseFromGrows(s: string, close: string, i: nat, k: nat, L: nat)
    requires i + k <= |s| && i <= L <= |s|
    ensures CloseFrom(s[..L], close, i, Min(k, L - i)).Some? ==> CloseFrom(s, close, i, k).Some?
  {
    var s' := s[..L];
    var k' := Min(k, L - i);
    if CloseFrom(s', close, i, k').Some? {
      var j := CloseFrom(s', close, i, k').value.bodyEnd;
      AtTruncated(s, L, j, close);
      CloseFromSome(s, close, i, k, j - i);
    }
  }

  lemma {:induction false} CloseFromTruncated(s: string, close: string, i: nat, k: nat, L: nat)
    requires i + k <= |s| && i <= L <= |s|
    requires CloseFrom(s, close, i, k).Some? && CloseFrom(s, close, i, k).value.end <= L
    ensures CloseFrom(s[..L], close, i, Min(k, L - i)) == CloseFrom(s, close, i, k)
    decreases k
  {
    AtTruncated(s, L, i + k, close);
    if At(s, i + k, close) {
      CloseFromHit(s[..L], close, i, k);
    } else {
      CloseFromTruncated(s, close, i, k - 1, L);
      if i + k <= L {
        CloseFromMiss(s[..L], close, i, k);
      }
    }
  }

  lemma CloseFromHit(t: string, close: string, i: nat, k: nat)
    requires i + k <= |t| && At(t, i + k, close)
    ensures CloseFrom(t, close, i, k) == Some(Tail(i, i + k, i + k + |close|))
  {
  }

  lemma CloseFromMiss(t: string, close: string, i: nat, k: nat)
    requires 0 < k && i + k <= |t| && !At(t, i + k, close)
    ensures CloseFrom(t, close, i, k) == CloseFrom(t, close, i, k - 1)
  {
  }

  lemma CloseTruncated(s: string, close: string, i: nat, L: nat)
    requires i <= L <= |s|
    ensures Close(s[..L], close, i).Some? ==> Close(s, close, i).Some?
    ensures Close(s, close, i).Some? && Close(s, close, i).value.end <= L ==> Close(s[..L], close, i) == Close(s, close, i)
  {
    SpacesAtTruncated(s, L, i);
    CloseFromGrows(s, close, i, SpacesAt(s, i), L);
    if Close(s, close, i).Some? && Close(s, close, i).value.end <= L {
      CloseFromTruncated(s, close, i, SpacesAt(s, i), L);
    }
  }

  lemma {:induction false} WordsWitness(s: string, d: Delims, i: nat, n: nat) returns (j: nat)
    requires i <= |s| && 0 < n <= WordsAt(s, i) && Words(s, d, i, n).Some?
    ensures 0 < j <= n && Group(s, d, i + j).Some?
    decreases n
  {
    if Group(s, d, i + n).Some? {
      j := n;
    } else {
      j := WordsWitness(s, d, i, n - 1);
    }
  }

  /** A partial match in a truncated text is one in the whole text. */
  lemma {:induction false} GroupGrows(s: string, d: Delims, i: nat, L: nat)
    requires i <= L <= |s|
    ensures Group(s[..L], d, i).Some? ==> Group(s, d, i).Some?
    decreases |s| - i, 1
  {
    var s' := s[..L];
    var k := |d.sep|;
    if Group(s', d, i).Some? {
      GroupStep(s', d, i);
      if Repeats(s', d, i) {
        AtTruncated(s, L, i, d.sep);
        WordsAtTruncated(s, L, i + k);
        WordsGrows(s, d, i + k, WordsAt(s, i + k), WordsAt(s', i + k), L);
        GroupCompleteRepeat(s, d, i);
      } else {
        CloseTruncated(s, d.close, i, L);
        GroupCompleteClose(s, d, i);
      }
    }
  }

  lemma {:induction false} WordsGrows(s: string, d: Delims, i: nat, n: nat, n': nat, L: nat)
    requires i <= L <= |s| && 0 < n' <= n <= WordsAt(s, i) && n' <= WordsAt(s[..L], i)
    ensures Words(s[..L], d, i, n').Some? ==> Words(s, d, i, n).Some?
    decreases |s| - i, 0
  {
    if Words(s[..L], d, i, n').Some? {
      var j := WordsWitness(s[..L], d, i, n');
      GroupGrows(s, d, i + j, L);
      WordsSome(s, d, i, n, j);
    }
  }

  /** A partial match that ends within the first `L` characters is the same
      in the text cut after `L` characters. */
  lemma {:induction false} GroupTruncated(s: string, d: Delims, i: nat, L: nat)
    requires i <= L <= |s|
    requires Group(s, d, i).Some? && Group(s, d, i).value.end <= L
    ensures Group(s[..L], d, i) == Group(s, d, i)
    decreases |s| - i, 2, 0
  {
    GroupStep(s, d, i);
    if Repeats(s, d, i) {
      GroupTruncatedRepeat(s, d, i, L);
    } else {
      GroupTruncatedClose(s, d, i, L);
    }
  }

  lemma {:induction false} GroupTruncatedRepeat(s: string, d: Delims, i: nat, L: nat)
    requires i <= L <= |s| && At(s, i, d.sep) && WordsAt(s, i + |d.sep|) > 0
    requires var w := Words(s, d, i + |d.sep|, WordsAt(s, i + |d.sep|)); w.Some? && w.value.end <= L
    ensures Group(s[..L], d, i) == Group(s, d, i)
    decreases |s| - i, 1, 0
  {
    var k := |d.sep|;
    AtTruncated(s, L, i, d.sep);
    WordsAtTruncated(s, L, i + k);
    WordsTruncated(s, d, i + k, WordsAt(s, i + k), L);
    GroupRepeatSame(s, s[..L], d, i);
  }

  /** Two texts whose repetitions at `i` find the same partial match. */
  lemma GroupRepeatSame(s: string, t: string, d: Delims, i: nat)
    requires i <= |s| && Repeats(s, d, i)
    requires i <= |t| && At(t, i, d.sep) && WordsAt(t, i + |d.sep|) > 0
    requires Words(t, d, i + |d.sep|, WordsAt(t, i + |d.sep|)) == Words(s, d, i + |d.sep|, WordsAt(s, i + |d.sep|))
    ensures Group(t, d, i) == Group(s, d, i)
  {
    GroupStep(s, d, i);
    GroupStep(t, d, i);
  }

  lemma GroupTruncatedClose(s: string, d: Delims, i: nat, L: nat)
    requires i <= L <= |s|
    requires !Repeats(s, d, i)
    requires Close(s, d.close, i).Some? && Close(s, d.close, i).value.end <= L
    ensures Group(s[..L], d, i) == Group(s, d, i)
  {
    var s' := s[..L];
    var k := |d.sep|;
    CloseTruncated(s, d.close, i, L);
    AtTruncated(s, L, i, d.sep);
    if At(s', i, d.sep) && WordsAt(s', i + k) > 0 {
      WordsAtTruncated(s, L, i + k);
      WordsGrows(s, d, i + k, WordsAt(s, i + k), WordsAt(s', i + k), L);
    }
    GroupCloseSame(s, s', d, i);
  }

  /** Two texts where the repetition is not taken at `i` and whose closing
      delimiters agree find the same partial match. */
  lemma GroupCloseSame(s: string, t: string, d: Delims, i: nat)
    requires i <= |s| && i <= |t| && !Repeats(s, d, i) && !Repeats(t, d, i)
    requires Close(t, d.close, i) == Close(s, d.close, i)
    ensures Group(t, d, i) == Group(s, d, i)
  {
    GroupStep(s, d, i);
    GroupStep(t, d, i);
  }

  lemma {:induction false} WordsTruncated(s: string, d: Delims, i: nat, n: nat, L: nat)
    requires i <= L <= |s| && 0 < n <= WordsAt(s, i)
    requires Words(s, d, i, n).Some? && Words(s, d, i, n).value.end <= L
    ensures 0 < Min(n, L - i) <= WordsAt(s[..L], i)
    ensures Words(s[..L], d, i, Min(n, L - i)) == Words(s, d, i, n)
    decreases |s| - i, 0, n
  {
    WordsAtTruncated(s, L, i);
    WordsStep(s, d, i, n);
    if Group(s, d, i + n).Some? {
      GroupTruncated(s, d, i + n, L);
      WordsHit(s, d, i, n, L);
    } else {
      WordsTruncated(s, d, i, n - 1, L);
      if i + n <= L {
        GroupGrows(s, d, i + n, L);
      }
      WordsMissTruncated(s, s[..L], d, i, n, L);
    }
  }

  /** The step of `WordsTruncated` where the longest word is followed by
      the rest of the shape. */
  lemma WordsHit(s: string, d: Delims, i: nat, n: nat, L: nat)
    requires i <= L <= |s| && 0 < n <= WordsAt(s, i) && i + n <= L
    requires WordsAt(s[..L], i) == Min(WordsAt(s, i), L - i)
    requires Group(s, d, i + n).Some? && Group(s[..L], d, i + n) == Group(s, d, i + n)
    ensures Words(s[..L], d, i, n) == Words(s, d, i, n)
  {
    WordsStep(s, d, i, n);
    WordsStep(s[..L], d, i, n);
  }

  /** The step of `WordsTruncated` where the longest word fails: `t` is the
      text cut after `L` characters. */
  lemma WordsMissTruncated(s: string, t: string, d: Delims, i: nat, n: nat, L: nat)
    requires i <= |s| && 1 < n <= WordsAt(s, i) && Group(s, d, i + n).None? && i <= L
    requires i + n <= L ==> i <= |t| && n <= WordsAt(t, i) && Group(t, d, i + n).None?
    requires 0 < Min(n - 1, L - i) && i <= |t| && Min(n - 1, L - i) <= WordsAt(t, i)
    requires Words(t, d, i, Min(n - 1, L - i)) == Words(s, d, i, n - 1)
    ensures 0 < Min(n, L - i) <= WordsAt(t, i)
    ensures Words(t, d, i, Min(n, L - i)) == Words(s, d, i, n)
  {
    WordsMiss(s, d, i, n);
    if i + n <= L {
      WordsMiss(t, d, i, n);
    }
  }

  lemma WordsMiss(s: string, d: Delims, i: nat, n: nat)
    requires i <= |s| && 1 < n <= WordsAt(s, i) && Group(s, d, i + n).None?
    ensures Words(s, d, i, n) == Words(s, d, i, n - 1)
  {
  }

  /** One step of `Words`: the longest word first, then one character less. */
  lemma WordsStep(s: string, d: Delims, i: nat, n: nat)
    requires i <= |s| && 0 < n <= WordsAt(s, i)
    ensures Group(s, d, i + n).Some? ==> Words(s, d, i, n) == Group(s, d, i + n)
    ensures Group(s, d, i + n).None? ==> Words(s, d, i, n) == if n == 1 then None else Words(s, d, i, n - 1)
  {
  }

  lemma MatchTruncated(s: string, d: Delims, i: nat, L: nat)
    requires i <= L <= |s|
    requires MatchAt(s, d, i).Some? && MatchAt(s, d, i).value.end <= L
    ensures MatchAt(s[..L], d, i) == MatchAt(s, d, i)
  {
    AtTruncated(s, L, i, d.open);
    SpacesAtTruncated(s, L, i + |d.open|);
    var a := PathStart(s, d, i);
    var h := Words(s, d, a, WordsAt(s, a)).value;
    assert a < h.pathEnd <= L;
    assert PathStart(s[..L], d, i) == a;
    WordsAtTruncated(s, L, a);
    WordsTruncated(s, d, a, WordsAt(s, a), L);
    assert Words(s[..L], d, a, WordsAt(s[..L], a)) == Some(h);
  }

  /** The placeholder regex is local, so rescanning one of its match texts
      finds the same match. */
  lemma RegexLocal(d: Delims)
    ensures Local(Regex(d))
  {
    forall t: string, L: nat | L <= |t| && Regex(d)(t).Some? && Regex(d)(t).value.end <= L
      ensures Regex(d)(t[..L]) == Regex(d)(t)
    {
      MatchTruncated(t, d, 0, L);
    }
  }

  /** A match is the text of a placeholder, and its capture group, trimmed,
      is a path. */
  lemma MatchText(t: string, d: Delims, q: Placeholder)
    requires MatchAt(t, d, 0) == Some(q)
    ensures q.bodyStart <= q.bodyEnd <= q.end <= |t|
    ensures t[..q.end] == d.open + t[q.bodyStart..q.bodyEnd] + d.close
    ensures IsPath(Trim(t[q.bodyStart..q.bodyEnd]), d.sep)
  {
    var b := MatchShape(t, d, 0);
    PlaceholderText(t, d, 0, PathStart(t, d, 0), b, q.bodyEnd);
    PathEnds(t[PathStart(t, d, 0)..b], d.sep);
    assert t[..q.end] == t[0..q.end];
  }

  /** Every match of the placeholder regex found in a text is the text of a
      placeholder, and its capture group, trimmed, is a path. */
  lemma MatchPath(s: string, d: Delims, p: Placeholder)
    requires IsMatchAt(s, Regex(d), p)
    ensures p.start <= p.bodyStart <= p.bodyEnd <= p.end <= |s|
    ensures s[p.start..p.end] == d.open + s[p.bodyStart..p.bodyEnd] + d.close
    ensures IsPath(Trim(s[p.bodyStart..p.bodyEnd]), d.sep)
  {
    var t := s[p.start..];
    var q := Regex(d)(t).value;
    MatchText(t, d, q);
    MatchShifted(s, d.open + t[q.bodyStart..q.bodyEnd] + d.close, t, p, q);
  }

  /** What `s.match` on the placeholder regex returns: one text per match of
      the scan, in order, each the opening delimiter, a capture group whose
      trimmed content is a path, and the closing delimiter. */
  lemma MatchTextsShape(s: string, d: Delims)
    ensures |MatchTexts(s, Regex(d))| == |Scan(s, Regex(d), 0)|
    ensures forall k :: 0 <= k < |Scan(s, Regex(d), 0)| ==>
      var p := Scan(s, Regex(d), 0)[k];
      MatchTexts(s, Regex(d))[k] == d.open + s[p.bodyStart..p.bodyEnd] + d.close
      && IsPath(Trim(s[p.bodyStart..p.bodyEnd]), d.sep)
  {
    var ms := Scan(s, Regex(d), 0);
    forall k | 0 <= k < |ms|
      ensures MatchTexts(s, Regex(d))[k] == d.open + s[ms[k].bodyStart..ms[k].bodyEnd] + d.close
      ensures IsPath(Trim(s[ms[k].bodyStart..ms[k].bodyEnd]), d.sep)
    {
      MatchPath(s, d, ms[k]);
    }
  }

  /** Moves what a match found in a suffix says back to the whole text. */
  lemma MatchShifted(s: string, x: string, t: string, p: Placeholder, q: Placeholder)
    requires p.start <= |s| && t == s[p.start..] && q.Shift(p.start) == p
    requires q.bodyStart <= q.bodyEnd <= q.end <= |t| && t[..q.end] == x
    ensures s[p.start..p.end] == x && s[p.bodyStart..p.bodyEnd] == t[q.bodyStart..q.bodyEnd]
  {
    SliceOfSuffix(s, p.start, 0, q.end);
    SliceOfSuffix(s, p.start, q.bodyStart, q.bodyEnd);
  }

  /** A slice of a suffix is a slice of the whole text. */
  lemma SliceOfSuffix(s: string, a: nat, b: nat, c: nat)
    requires a <= |s| && b <= c <= |s| - a
    ensures s[a..][b..c] == s[a + b..a + c]
    ensures b == 0 ==> s[a..][..c] == s[a..a + c]
  {
  }
}
