// The JavaScript values that a configuration document and a values object are
// made of, and `traverse` (lib/main.js), which walks a separator-delimited
// path through such a document.

module Documents {
  import opened Wrappers
  import opened Strings

  /** A JSON value, as `JSON.parse` produces it.  Numbers are integers. */
  datatype Doc =
    | Str(s: string)
    | Num(n: int)
    | Bool(b: bool)
    | Null
    | Arr(items: seq<Doc>)
    | Obj(fields: map<string, Doc>)

  /** The values that are false in a boolean context. */
  predicate Falsy(d: Doc) {
    d == Str("") || d == Num(0) || d == Bool(false) || d == Null
  }

  /** `type-detect` names the value 'number', 'string' or 'boolean'. */
  predicate Accepted(d: Doc) {
    d.Str? || d.Num? || d.Bool?
  }

  const EmptyObject: Doc := Obj(map[])

  // ---------------------------------------------------------------------------
  // Conversion to text

  /** `String(d)`: what `test` and template literals make of a value. */
  function ToText(d: Doc): string
    decreases d, 1
  {
    match d
    case Str(s) => s
    case Num(n) => IntToString(n)
    case Bool(b) => if b then "true" else "false"
    case Null => "null"
    case Arr(items) => ItemsText(items)
    case Obj(_) => "[object Object]"
  }

  /** `Array.prototype.join(",")`, which writes `null` items as nothing. */
  function ItemsText(items: seq<Doc>): string
    decreases items, 0
  {
    if items == [] then []
    else
      var first := if items[0] == Null then [] else ToText(items[0]);
      if |items| == 1 then first else first + "," + ItemsText(items[1..])
  }

  // ---------------------------------------------------------------------------
  // Property access

  /** The index `n < len` whose canonical decimal text is `key`, if any. */
  function IndexKey(key: string, len: nat): (r: Option<nat>)
    ensures r.Some? ==> r.value < len && NatToString(r.value) == key
    ensures r.None? ==> forall n: nat :: n < len ==> NatToString(n) != key
  {
    if len == 0 then None
    else if NatToString(len - 1) == key then Some(len - 1)
    else IndexKey(key, len - 1)
  }

  /** `parent[key]` on a value that is neither `null` nor `undefined`, with
      `None` for `undefined`.  Properties inherited from prototypes are not
      modelled. */
  function Member(parent: Doc, key: string): (r: Option<Doc>)
    ensures r.Some? ==> parent.Obj? || parent.Arr? || parent.Str?
  {
    match parent
    case Obj(fields) => if key in fields then Some(fields[key]) else None
    case Arr(items) =>
      if key == "length" then Some(Num(|items|))
      else (
        match IndexKey(key, |items|)
        case Some(k) => Some(items[k])
        case None => None)
    case Str(s) =>
      if key == "length" then Some(Num(|s|))
      else (
        match IndexKey(key, |s|)
        case Some(k) => Some(Str([s[k]]))
        case None => None)
    case _ => None
  }

  /** The reducer of `traverse`: `parent[key] || {}`. */
  function Descend(parent: Doc, key: string): Doc {
    match Member(parent, key)
    case Some(c) => if Falsy(c) then EmptyObject else c
    case None => EmptyObject
  }

  function Walk(d: Doc, keys: seq<string>): Doc
    decreases |keys|
  {
    if keys == [] then d else Walk(Descend(d, keys[0]), keys[1..])
  }

  /** `path.split(subKeyPointer)`; `split(undefined)` gives the whole path. */
  function Keys(path: string, subKeyPointer: Option<string>): seq<string> {
    match subKeyPointer
    case None => [path]
    case Some(sep) => Split(path, sep)
  }

  /** The keys `traverse` walks: without a separator the path is the one
      key; with one, the keys joined back with it give the path, and no key
      contains a non-empty separator. */
  lemma KeysJoin(path: string, subKeyPointer: Option<string>)
    ensures subKeyPointer.None? ==> Keys(path, subKeyPointer) == [path]
    ensures subKeyPointer.Some? ==> Join(Keys(path, subKeyPointer), subKeyPointer.value) == path
    ensures subKeyPointer.Some? && subKeyPointer.value != [] ==>
      var keys := Keys(path, subKeyPointer);
      forall i, j :: 0 <= i < |keys| && 0 <= j <= |keys[i]| ==> !(subKeyPointer.value <= keys[i][j..])
  {
    if subKeyPointer.Some? {
      SplitJoin(path, subKeyPointer.value);
    }
  }

  /** `traverse(obj, path, subKeyPointer)`. */
  function Traverse(obj: Doc, path: string, subKeyPointer: Option<string>): (r: Doc)
    ensures Accepted(r)
  {
    var result := Walk(obj, Keys(path, subKeyPointer));
    if Accepted(result) then result else Str("")
  }

  // ---------------------------------------------------------------------------
  // What `traverse` finds

  /** Nested lookup along `keys`: defined when every step exists and is not
      falsy. */
  function Get(d: Doc, keys: seq<string>): Option<Doc>
    decreases |keys|
  {
    if keys == [] then Some(d)
    else
      match Member(d, keys[0])
      case None => None
      case Some(c) => if Falsy(c) then None else Get(c, keys[1..])
  }

  lemma {:induction false} WalkEmptyObject(keys: seq<string>)
    ensures Walk(EmptyObject, keys) == EmptyObject
    decreases |keys|
  {
    if keys != [] {
      WalkEmptyObject(keys[1..]);
    }
  }

  /** The reduction in `traverse` reaches the value of the nested lookup, and
      `{}` as soon as a step is missing or falsy. */
  lemma {:induction false} WalkIsGet(d: Doc, keys: seq<string>)
    ensures Walk(d, keys) == match Get(d, keys) case Some(v) => v case None => EmptyObject
    decreases |keys|
  {
    if keys != [] {
      match Member(d, keys[0])
      case None =>
        WalkEmptyObject(keys[1..]);
      case Some(c) =>
        if Falsy(c) {
          WalkEmptyObject(keys[1..]);
        } else {
          WalkIsGet(c, keys[1..]);
        }
    }
  }

  /** `traverse` gives the value at the end of the path when the path leads
      to a number, string or boolean through non-falsy steps, and `''` in
      every other case. */
  lemma TraverseFinds(obj: Doc, path: string, subKeyPointer: Option<string>)
    ensures Traverse(obj, path, subKeyPointer) == match Get(obj, Keys(path, subKeyPointer))
      case Some(v) => (if Accepted(v) then v else Str(""))
      case None => Str("")
  {
    WalkIsGet(obj, Keys(path, subKeyPointer));
  }

  /** The result of `traverse` is `''` or a value that is not falsy: a leaf
      equal to `0`, `false` or `''` comes back as `''`. */
  lemma TraverseNotFalsy(obj: Doc, path: string, subKeyPointer: Option<string>)
    requires Keys(path, subKeyPointer) != []
    ensures var r := Traverse(obj, path, subKeyPointer); r == Str("") || !Falsy(r)
  {
    TraverseFinds(obj, path, subKeyPointer);
    GetNotFalsy(obj, Keys(path, subKeyPointer));
  }

  lemma {:induction false} GetNotFalsy(d: Doc, keys: seq<string>)
    requires keys != []
    ensures Get(d, keys).Some? ==> !Falsy(Get(d, keys).value)
    decreases |keys|
  {
    match Member(d, keys[0])
    case None =>
    case Some(c) =>
      if !Falsy(c) && keys[1..] != [] {
        GetNotFalsy(c, keys[1..]);
      }
  }

  /** A path that does not contain the separator names a top-level key. */
  lemma KeysOfPlainPath(path: string, subKeyPointer: Option<string>)
    requires subKeyPointer.Some? ==> subKeyPointer.value != [] && IndexOf(path, subKeyPointer.value, 0).None?
    ensures Keys(path, subKeyPointer) == [path]
  {
  }

  /** A top-level leaf: returned when it is a truthy number, string or
      boolean, `''` otherwise. */
  lemma TraverseTopLevel(fields: map<string, Doc>, key: string, subKeyPointer: Option<string>)
    requires subKeyPointer.Some? ==> subKeyPointer.value != [] && IndexOf(key, subKeyPointer.value, 0).None?
    ensures Traverse(Obj(fields), key, subKeyPointer) ==
      if key in fields && Accepted(fields[key]) && !Falsy(fields[key]) then fields[key] else Str("")
  {
    KeysOfPlainPath(key, subKeyPointer);
    TraverseFinds(Obj(fields), key, subKeyPointer);
  }
}
