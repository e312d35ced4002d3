// lib/main.js, the stateful part: `flattenAndResolve`, which builds the
// path-to-value cache of a document, and `expand`, the entry point.  Each is
// a method over the regex objects with their `lastIndex`, proved against a
// function that states what it computes.

module Expansion {
  import opened Wrappers
  import opened Strings
  import opened Documents
  import opened Placeholders
  import opened SetOperations
  import opened RegexExtensions
  import opened Interpolation

  // ---------------------------------------------------------------------------
  // What `flattenAndResolve` computes

  /** The three uses `flattenAndResolve` makes of its parameter regex: `test`,
      `getInterpolated` and `getMatchSet` of the `match` of a string. */
  datatype Engine = Engine(
    hasMatch: string -> bool,
    interpolate: (string, map<string, Doc>, bool) -> Result<string, Error>,
    matchSet: string -> seq<string>)

  /** The engine of the parameter regex of `d`. */
  function ParamEngine(d: Delims): Engine {
    Engine(
      s => HasMatch(s, Regex(d)),
      (s, values, keepAlive) => GetInterpolated(s, d, values, keepAlive),
      s => GetMatchSet(MatchTexts(s, Regex(d)), d))
  }

  /** A term that names a string; the facts of `Drives` are used only where
      one is asked for, through `DrivesAt` and `DrivesInterpolate`. */
  ghost predicate Named(s: string) { true }

  ghost predicate NamedCall(s: string, values: map<string, Doc>, keepAlive: bool) { true }

  /** `e` is the engine of the delimiters `d`, seen only through what it
      gives. */
  ghost predicate Drives(e: Engine, d: Delims) {
    && (forall s {:trigger Named(s)} :: e.hasMatch(s) == HasMatch(s, Regex(d)))
    && (forall s, values, keepAlive {:trigger NamedCall(s, values, keepAlive)} ::
          e.interpolate(s, values, keepAlive) == GetInterpolated(s, d, values, keepAlive))
    && (forall s {:trigger Named(s)} :: e.matchSet(s) == GetMatchSet(MatchTexts(s, Regex(d)), d))
  }

  lemma ParamEngineDrives(d: Delims)
    ensures Drives(ParamEngine(d), d)
  {
  }

  /** What an engine that drives `d` gives for `s`. */
  lemma DrivesAt(e: Engine, d: Delims, s: string)
    requires Drives(e, d)
    ensures e.hasMatch(s) == HasMatch(s, Regex(d))
    ensures e.matchSet(s) == GetMatchSet(MatchTexts(s, Regex(d)), d)
  {
    assert Named(s);
  }

  lemma DrivesInterpolate(e: Engine, d: Delims, s: string, values: map<string, Doc>, keepAlive: bool)
    requires Drives(e, d)
    ensures e.interpolate(s, values, keepAlive) == GetInterpolated(s, d, values, keepAlive)
  {
    assert NamedCall(s, values, keepAlive);
  }

  /** One turn of the `forEach` in `flattenAndResolve`: the value at `path`
      is stored as it is when it holds no placeholder; otherwise it first
      gets a `keepAlive` pass against the cache, and when placeholders are
      still left, they are resolved from a fresh cache, merged in, and
      substituted, the missing ones by nothing.  `fuel` bounds the depth of
      the recursion, which the source does not bound. */
  function ResolveStep(obj: Doc, path: string, e: Engine, sep: Option<string>, fuel: nat, cache: map<string, Doc>)
    : Result<map<string, Doc>, Error>
    decreases fuel, 1
  {
    var cur := Traverse(obj, path, sep);
    if !e.hasMatch(ToText(cur)) then Ok(cache[path := cur])
    else if !cur.Str? then Err(TypeError)
    else
      var kept :- e.interpolate(cur.s, cache, true);
      ResolveKept(obj, path, kept, e, fuel, cache)
  }

  /** The rest of a turn, once the value at `path` has had its `keepAlive`
      pass and become `kept`. */
  function ResolveKept(obj: Doc, path: string, kept: string, e: Engine, fuel: nat, cache: map<string, Doc>)
    : Result<map<string, Doc>, Error>
    decreases fuel, 0
  {
    if !e.hasMatch(kept) then Ok(cache[path := Str(kept)])
    else if fuel == 0 then Err(OutOfFuel)
    else
      var sub :- Resolve(obj, e.matchSet(kept), e, None, fuel - 1);
      var merged := cache + sub;
      var t :- e.interpolate(kept, merged, false);
      Ok(merged[path := Str(t)])
  }

  /** `flattenAndResolve(obj, matchSet, paramRegex, _, subKeyPointer)`: the
      turns over `matchSet` in order, from an empty cache; the first error
      ends the loop. */
  function Resolve(obj: Doc, ms: seq<string>, e: Engine, sep: Option<string>, fuel: nat)
    : Result<map<string, Doc>, Error>
    decreases fuel, |ms| + 2
  {
    if ms == [] then Ok(map[])
    else
      var cache :- Resolve(obj, ms[..|ms| - 1], e, sep, fuel);
      ResolveStep(obj, ms[|ms| - 1], e, sep, fuel, cache)
  }

  /** An error in the turns over a prefix is the error of the whole loop. */
  lemma {:induction false} ResolveErrorStops(obj: Doc, ms: seq<string>, k: nat, e: Engine, sep: Option<string>, fuel: nat)
    requires k <= |ms| && Resolve(obj, ms[..k], e, sep, fuel).Err?
    ensures Resolve(obj, ms, e, sep, fuel) == Resolve(obj, ms[..k], e, sep, fuel)
    decreases |ms| - k
  {
    if k == |ms| {
      assert ms[..k] == ms;
    } else {
      var ms' := ms[..|ms| - 1];
      assert ms'[..k] == ms[..k];
      ResolveErrorStops(obj, ms', k, e, sep, fuel);
    }
  }

  /** The loop after one more turn. */
  lemma ResolveSnoc(obj: Doc, ms: seq<string>, i: nat, e: Engine, sep: Option<string>, fuel: nat, cache: map<string, Doc>)
    requires i < |ms| && Resolve(obj, ms[..i], e, sep, fuel) == Ok(cache)
    ensures Resolve(obj, ms[..i + 1], e, sep, fuel) == ResolveStep(obj, ms[i], e, sep, fuel, cache)
  {
    assert ms[..i + 1][..i] == ms[..i];
  }

  /** A turn keeps the keys of the cache and adds its path. */
  lemma StepKeys(obj: Doc, path: string, e: Engine, sep: Option<string>, fuel: nat, cache: map<string, Doc>)
    requires ResolveStep(obj, path, e, sep, fuel, cache).Ok?
    ensures path in ResolveStep(obj, path, e, sep, fuel, cache).value
    ensures cache.Keys <= ResolveStep(obj, path, e, sep, fuel, cache).value.Keys
  {
  }

  /** Every path of the match set is a key of the cache. */
  lemma {:induction false} ResolveKeys(obj: Doc, ms: seq<string>, e: Engine, sep: Option<string>, fuel: nat)
    requires Resolve(obj, ms, e, sep, fuel).Ok?
    ensures forall x :: x in ms ==> x in Resolve(obj, ms, e, sep, fuel).value
    decreases |ms|
  {
    if ms != [] {
      var ms' := ms[..|ms| - 1];
      ResolveKeys(obj, ms', e, sep, fuel);
      StepKeys(obj, ms[|ms| - 1], e, sep, fuel, Resolve(obj, ms', e, sep, fuel).value);
      assert ms == ms' + [ms[|ms| - 1]];
    }
  }

  /** Every value in the cache is a number, a string or a boolean: never
      `null`, so the final substitution of `expand` cannot throw. */
  lemma {:induction false} ResolveAccepted(obj: Doc, ms: seq<string>, e: Engine, sep: Option<string>, fuel: nat)
    requires Resolve(obj, ms, e, sep, fuel).Ok?
    ensures forall k :: k in Resolve(obj, ms, e, sep, fuel).value ==> Accepted(Resolve(obj, ms, e, sep, fuel).value[k])
    decreases fuel, |ms|
  {
    if ms != [] {
      var ms' := ms[..|ms| - 1];
      ResolveAccepted(obj, ms', e, sep, fuel);
      StepAccepted(obj, ms[|ms| - 1], e, sep, fuel, Resolve(obj, ms', e, sep, fuel).value);
    }
  }

  lemma {:induction false} StepAccepted(obj: Doc, path: string, e: Engine, sep: Option<string>, fuel: nat, cache: map<string, Doc>)
    requires forall k :: k in cache ==> Accepted(cache[k])
    requires ResolveStep(obj, path, e, sep, fuel, cache).Ok?
    ensures forall k :: k in ResolveStep(obj, path, e, sep, fuel, cache).value ==> Accepted(ResolveStep(obj, path, e, sep, fuel, cache).value[k])
    decreases fuel, 0
  {
    var cur := Traverse(obj, path, sep);
    if e.hasMatch(ToText(cur)) && cur.Str? {
      var kept := e.interpolate(cur.s, cache, true).value;
      if e.hasMatch(kept) {
        ResolveAccepted(obj, e.matchSet(kept), e, None, fuel - 1);
      }
    }
  }

  /** When no value along the match set holds a placeholder, the cache maps
      each path to what `traverse` finds there. */
  lemma {:induction false} ResolveFlat(obj: Doc, ms: seq<string>, e: Engine, sep: Option<string>, fuel: nat)
    requires forall k :: 0 <= k < |ms| ==> !e.hasMatch(ToText(Traverse(obj, ms[k], sep)))
    ensures Resolve(obj, ms, e, sep, fuel) == Ok(map x | x in ms :: Traverse(obj, x, sep))
    decreases |ms|
  {
    if ms != [] {
      var ms' := ms[..|ms| - 1];
      var last := ms[|ms| - 1];
      assert forall k :: 0 <= k < |ms'| ==> ms'[k] == ms[k];
      ResolveFlat(obj, ms', e, sep, fuel);
      var cache := map x | x in ms' :: Traverse(obj, x, sep);
      ResolveLast(obj, ms, e, sep, fuel, cache);
      assert !e.hasMatch(ToText(Traverse(obj, last, sep)));
      StepFlat(obj, last, e, sep, fuel, cache);
      FlatCacheSnoc(obj, ms, sep);
    }
  }

  /** The loop is its last turn from the cache of the turns before. */
  lemma ResolveLast(obj: Doc, ms: seq<string>, e: Engine, sep: Option<string>, fuel: nat, cache: map<string, Doc>)
    requires ms != [] && Resolve(obj, ms[..|ms| - 1], e, sep, fuel) == Ok(cache)
    ensures Resolve(obj, ms, e, sep, fuel) == ResolveStep(obj, ms[|ms| - 1], e, sep, fuel, cache)
  {
  }

  /** A turn whose value holds no placeholder stores that value. */
  lemma StepFlat(obj: Doc, path: string, e: Engine, sep: Option<string>, fuel: nat, cache: map<string, Doc>)
    requires !e.hasMatch(ToText(Traverse(obj, path, sep)))
    ensures ResolveStep(obj, path, e, sep, fuel, cache) == Ok(cache[path := Traverse(obj, path, sep)])
  {
  }

  lemma FlatCacheSnoc(obj: Doc, ms: seq<string>, sep: Option<string>)
    requires ms != []
    ensures (map x | x in ms[..|ms| - 1] :: Traverse(obj, x, sep))[ms[|ms| - 1] := Traverse(obj, ms[|ms| - 1], sep)]
      == map x | x in ms :: Traverse(obj, x, sep)
  {
    assert ms == ms[..|ms| - 1] + [ms[|ms| - 1]];
  }

  /** More fuel changes nothing once the recursion has finished: the bound
      only cuts off recursion that the source would carry on. */
  lemma {:induction false} ResolveFuel(obj: Doc, ms: seq<string>, e: Engine, sep: Option<string>, fuel: nat, more: nat)
    requires fuel <= more && Resolve(obj, ms, e, sep, fuel) != Err(OutOfFuel)
    ensures Resolve(obj, ms, e, sep, more) == Resolve(obj, ms, e, sep, fuel)
    decreases fuel, |ms| + 1
  {
    if ms != [] {
      var ms' := ms[..|ms| - 1];
      if Resolve(obj, ms', e, sep, fuel) != Err(OutOfFuel) {
        ResolveFuel(obj, ms', e, sep, fuel, more);
        if Resolve(obj, ms', e, sep, fuel).Ok? {
          StepFuel(obj, ms[|ms| - 1], e, sep, fuel, more, Resolve(obj, ms', e, sep, fuel).value);
        }
      }
    }
  }

  lemma {:induction false} StepFuel(obj: Doc, path: string, e: Engine, sep: Option<string>, fuel: nat, more: nat, cache: map<string, Doc>)
    requires fuel <= more && ResolveStep(obj, path, e, sep, fuel, cache) != Err(OutOfFuel)
    ensures ResolveStep(obj, path, e, sep, more, cache) == ResolveStep(obj, path, e, sep, fuel, cache)
    decreases fuel, 0
  {
    var cur := Traverse(obj, path, sep);
    if e.hasMatch(ToText(cur)) && cur.Str? && e.interpolate(cur.s, cache, true).Ok? {
      var kept := e.interpolate(cur.s, cache, true).value;
      StepIsKept(obj, path, e, sep, fuel, cache, kept);
      StepIsKept(obj, path, e, sep, more, cache, kept);
      KeptFuel(obj, path, kept, e, fuel, more, cache);
    }
  }

  lemma {:induction false} KeptFuel(obj: Doc, path: string, kept: string, e: Engine, fuel: nat, more: nat, cache: map<string, Doc>)
    requires fuel <= more && ResolveKept(obj, path, kept, e, fuel, cache) != Err(OutOfFuel)
    ensures ResolveKept(obj, path, kept, e, more, cache) == ResolveKept(obj, path, kept, e, fuel, cache)
    decreases fuel, 0, 0
  {
    if e.hasMatch(kept) && Resolve(obj, e.matchSet(kept), e, None, fuel - 1) != Err(OutOfFuel) {
      ResolveFuel(obj, e.matchSet(kept), e, None, fuel - 1, more - 1);
    }
  }

  /** A turn whose value holds placeholders and comes through its
      `keepAlive` pass as `kept` goes on as `ResolveKept`. */
  lemma StepIsKept(obj: Doc, path: string, e: Engine, sep: Option<string>, fuel: nat, cache: map<string, Doc>, kept: string)
    requires e.hasMatch(ToText(Traverse(obj, path, sep))) && Traverse(obj, path, sep).Str?
    requires e.interpolate(Traverse(obj, path, sep).s, cache, true) == Ok(kept)
    ensures ResolveStep(obj, path, e, sep, fuel, cache) == ResolveKept(obj, path, kept, e, fuel, cache)
  {
  }

  /** A value that names only itself never resolves: however deep the
      recursion may go, it ends without a value.  The source recurses until
      the stack overflows. */
  lemma {:induction false} SelfReferenceRunsOut(obj: Doc, path: string, x: string, e: Engine, fuel: nat)
    requires Traverse(obj, path, None) == Str(x) && e.hasMatch(x)
    requires e.interpolate(x, map[], true) == Ok(x) && e.matchSet(x) == [path]
    ensures Resolve(obj, [path], e, None, fuel) == Err(OutOfFuel)
    decreases fuel
  {
    assert [path][..0] == [];
    assert Resolve(obj, [path], e, None, fuel) == ResolveStep(obj, path, e, None, fuel, map[]);
    assert ResolveStep(obj, path, e, None, fuel, map[]) == ResolveKept(obj, path, x, e, fuel, map[]);
    if fuel > 0 {
      SelfReferenceRunsOut(obj, path, x, e, fuel - 1);
    }
  }

  /** With the parameter regex: a string that is one placeholder naming its
      own path, looked up as a whole key, as inside the recursion. */
  lemma SelfPlaceholderRunsOut(obj: Doc, path: string, x: string, d: Delims, p: Placeholder, fuel: nat)
    requires Traverse(obj, path, None) == Str(x)
    requires IsMatchAt(x, Regex(d), p) && p.start == 0 && p.end == |x|
    requires Trim(x[p.bodyStart..p.bodyEnd]) == path
    ensures Resolve(obj, [path], ParamEngine(d), None, fuel) == Err(OutOfFuel)
  {
    var e := ParamEngine(d);
    assert x[p.start..p.end] == x;
    InterpolatedPlaceholder(x, d, p, map[], true);
    PlaceholderPaths(x, d, p);
    MatchSetOfText(x, d);
    FromSeqOfNoDup(Paths(x, d));
    HasMatchIff(x, Regex(d));
    SelfReferenceRunsOut(obj, path, x, e, fuel);
  }

  // ---------------------------------------------------------------------------
  // `getInterpolated` and `flattenAndResolve` over the shared regex object

  /** `getInterpolated(str, regex, values, keepAlive)` on the regex object:
      the `match` in its log line and the `replace` both start from and end
      at `lastIndex == 0`. */
  method Interpolate(str: string, regex: GlobalRegex, values: map<string, Doc>, keepAlive: bool)
    returns (r: Result<string, Error>)
    modifies regex`lastIndex
    ensures r == GetInterpolated(str, regex.source, values, keepAlive)
    ensures regex.lastIndex == 0
  {
    var logged := regex.MatchAll(str);
    if ReachesNull(str, regex.source, values) {
      return Err(TypeError);
    }
    var replaced := regex.Replace(str, Lookup(values, keepAlive));
    r := Ok(replaced);
  }

  /** `flattenAndResolve`: the `forEach` over the match set, each turn
      updating the cache.  Every `test` runs with `lastIndex == 0`, because
      whatever moved it was followed by a `match` or `replace`. */
  method FlattenAndResolve(obj: Doc, matchSet: seq<string>, paramRegex: GlobalRegex, subKeyPointer: Option<string>, fuel: nat, ghost e: Engine)
    returns (r: Result<map<string, Doc>, Error>)
    requires paramRegex.lastIndex == 0 && Drives(e, paramRegex.source)
    modifies paramRegex`lastIndex
    ensures r == Resolve(obj, matchSet, e, subKeyPointer, fuel)
    ensures r.Ok? ==> paramRegex.lastIndex == 0
    decreases fuel, 2
  {
    var cache: map<string, Doc> := map[];
    var i := 0;
    while i < |matchSet|
      invariant 0 <= i <= |matchSet|
      invariant paramRegex.lastIndex == 0
      invariant Resolve(obj, matchSet[..i], e, subKeyPointer, fuel) == Ok(cache)
    {
      var next := ResolveTurn(obj, matchSet[i], paramRegex, subKeyPointer, fuel, cache, e);
      ResolveSnoc(obj, matchSet, i, e, subKeyPointer, fuel, cache);
      if next.Err? {
        ResolveErrorStops(obj, matchSet, i + 1, e, subKeyPointer, fuel);
        return Err(next.error);
      }
      cache := next.value;
      i := i + 1;
    }
    assert matchSet[..|matchSet|] == matchSet;
    r := Ok(cache);
  }

  /** The callback of the `forEach`: the cache after the turn for `path`.
      The recursive call passes the separator where `funcRegex` is expected,
      so inside it `subKeyPointer` is undefined. */
  method ResolveTurn(obj: Doc, path: string, paramRegex: GlobalRegex, subKeyPointer: Option<string>, fuel: nat, cache: map<string, Doc>, ghost e: Engine)
    returns (r: Result<map<string, Doc>, Error>)
    requires paramRegex.lastIndex == 0 && Drives(e, paramRegex.source)
    modifies paramRegex`lastIndex
    ensures r == ResolveStep(obj, path, e, subKeyPointer, fuel, cache)
    ensures r.Ok? ==> paramRegex.lastIndex == 0
    decreases fuel, 1
  {
    var d := paramRegex.source;
    var curVal := Traverse(obj, path, subKeyPointer);
    DrivesAt(e, d, ToText(curVal));
    var dirty := paramRegex.Test(ToText(curVal));
    if !dirty {
      return Ok(cache[path := curVal]);
    }
    if !curVal.Str? {
      return Err(TypeError);
    }
    DrivesInterpolate(e, d, curVal.s, cache, true);
    var kept := Interpolate(curVal.s, paramRegex, cache, true);
    if kept.Err? {
      return Err(kept.error);
    }
    r := ResolveRest(obj, path, kept.value, paramRegex, fuel, cache, e);
  }

  /** The callback after its `keepAlive` pass: steps 3 to 3.3. */
  method ResolveRest(obj: Doc, path: string, kept: string, paramRegex: GlobalRegex, fuel: nat, cache: map<string, Doc>, ghost e: Engine)
    returns (r: Result<map<string, Doc>, Error>)
    requires paramRegex.lastIndex == 0 && Drives(e, paramRegex.source)
    modifies paramRegex`lastIndex
    ensures r == ResolveKept(obj, path, kept, e, fuel, cache)
    ensures r.Ok? ==> paramRegex.lastIndex == 0
    decreases fuel, 0
  {
    DrivesAt(e, paramRegex.source, kept);
    var dirty := paramRegex.Test(kept);
    if !dirty {
      KeptClean(obj, path, kept, e, fuel, cache);
      return Ok(cache[path := Str(kept)]);
    }
    if fuel == 0 {
      return Err(OutOfFuel);
    }
    r := ResolveNested(obj, path, kept, paramRegex, fuel, cache, e);
  }

  /** Steps 3.1 to 3.3, for a value that still holds placeholders: its
      paths are resolved from a fresh cache, merged in, and substituted. */
  method ResolveNested(obj: Doc, path: string, kept: string, paramRegex: GlobalRegex, fuel: nat, cache: map<string, Doc>, ghost e: Engine)
    returns (r: Result<map<string, Doc>, Error>)
    requires Drives(e, paramRegex.source)
    requires e.hasMatch(kept) && fuel > 0
    modifies paramRegex`lastIndex
    ensures r == ResolveKept(obj, path, kept, e, fuel, cache)
    ensures r.Ok? ==> paramRegex.lastIndex == 0
    decreases fuel - 1, 3
  {
    var nested := NestedMatchSet(kept, paramRegex, e);
    var sub := FlattenAndResolve(obj, nested, paramRegex, None, fuel - 1, e);
    if sub.Err? {
      KeptNestedError(obj, path, kept, e, fuel, cache);
      return Err(sub.error);
    }
    KeptMerged(obj, path, kept, e, fuel, cache, sub.value);
    r := MergeNested(path, kept, paramRegex, cache, sub.value, e);
  }

  /** `getMatchSet(curVal.match(paramRegex), paramRegex)`. */
  method NestedMatchSet(kept: string, paramRegex: GlobalRegex, ghost e: Engine) returns (ms: seq<string>)
    requires Drives(e, paramRegex.source)
    modifies paramRegex`lastIndex
    ensures ms == e.matchSet(kept) && paramRegex.lastIndex == 0
  {
    DrivesAt(e, paramRegex.source, kept);
    var matches := paramRegex.MatchAll(kept);
    ms := GetMatchSet(matches, paramRegex.source);
  }

  /** Steps 3.2 and 3.3: `extend(cache, ...)` merges the nested cache into
      the cache, right wins, and the value at `path` is substituted from it,
      the missing paths by nothing. */
  method MergeNested(path: string, kept: string, paramRegex: GlobalRegex, cache: map<string, Doc>, sub: map<string, Doc>, ghost e: Engine)
    returns (r: Result<map<string, Doc>, Error>)
    requires Drives(e, paramRegex.source)
    modifies paramRegex`lastIndex
    ensures var t := e.interpolate(kept, cache + sub, false);
      r == if t.Err? then Err(t.error) else Ok((cache + sub)[path := Str(t.value)])
    ensures paramRegex.lastIndex == 0
  {
    var merged := cache + sub;
    DrivesInterpolate(e, paramRegex.source, kept, merged, false);
    var t := Interpolate(kept, paramRegex, merged, false);
    if t.Err? {
      return Err(t.error);
    }
    r := Ok(merged[path := Str(t.value)]);
  }

  lemma KeptClean(obj: Doc, path: string, kept: string, e: Engine, fuel: nat, cache: map<string, Doc>)
    requires !e.hasMatch(kept)
    ensures ResolveKept(obj, path, kept, e, fuel, cache) == Ok(cache[path := Str(kept)])
  {
  }

  lemma KeptNestedError(obj: Doc, path: string, kept: string, e: Engine, fuel: nat, cache: map<string, Doc>)
    requires e.hasMatch(kept) && fuel > 0 && Resolve(obj, e.matchSet(kept), e, None, fuel - 1).Err?
    ensures ResolveKept(obj, path, kept, e, fuel, cache) == Err(Resolve(obj, e.matchSet(kept), e, None, fuel - 1).error)
  {
  }

  /** A nested resolution keeps every key of the cache, adds every path of
      the value's own match set, and stores a string at `path`. */
  lemma KeptKeys(obj: Doc, path: string, kept: string, e: Engine, fuel: nat, cache: map<string, Doc>)
    requires e.hasMatch(kept) && ResolveKept(obj, path, kept, e, fuel, cache).Ok?
    ensures var c := ResolveKept(obj, path, kept, e, fuel, cache).value;
      && path in c && c[path].Str?
      && cache.Keys <= c.Keys
      && forall x :: x in e.matchSet(kept) ==> x in c
  {
    assert fuel > 0;
    ResolveKeys(obj, e.matchSet(kept), e, None, fuel - 1);
  }

  lemma KeptMerged(obj: Doc, path: string, kept: string, e: Engine, fuel: nat, cache: map<string, Doc>, sub: map<string, Doc>)
    requires e.hasMatch(kept) && fuel > 0 && Resolve(obj, e.matchSet(kept), e, None, fuel - 1) == Ok(sub)
    ensures var t := e.interpolate(kept, cache + sub, false);
      ResolveKept(obj, path, kept, e, fuel, cache) ==
        if t.Err? then Err(t.error) else Ok((cache + sub)[path := Str(t.value)])
  {
  }
}
