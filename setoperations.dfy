// lib/setoperations: `union` and `subtract` on JavaScript `Set`s.  A `Set`
// keeps its elements once each, in insertion order, so it is modelled as a
// sequence without duplicates; `new Set(iterable)` accepts any sequence.

module SetOperations {

  predicate NoDup<T(==)>(s: seq<T>) {
    forall i, j :: 0 <= i < j < |s| ==> s[i] != s[j]
  }

  /** `set.add(x)`: appends `x` unless it is already there. */
  function Add<T(==)>(s: seq<T>, x: T): seq<T> {
    if x in s then s else s + [x]
  }

  /** `set.delete(x)`: removes `x`, keeping the order of the rest. */
  function Delete<T(==)>(s: seq<T>, x: T): seq<T> {
    if s == [] then []
    else Delete(s[..|s| - 1], x) + (if s[|s| - 1] == x then [] else [s[|s| - 1]])
  }

  /** The set after `add` is called for each of `xs`, in order. */
  function AddAll<T(==)>(s: seq<T>, xs: seq<T>): seq<T> {
    if xs == [] then s else Add(AddAll(s, xs[..|xs| - 1]), xs[|xs| - 1])
  }

  /** The set after `delete` is called for each of `xs`, in order. */
  function DeleteAll<T(==)>(s: seq<T>, xs: seq<T>): seq<T> {
    if xs == [] then s else Delete(DeleteAll(s, xs[..|xs| - 1]), xs[|xs| - 1])
  }

  /** `new Set(xs)`. */
  function FromSeq<T(==)>(xs: seq<T>): seq<T> {
    AddAll([], xs)
  }

  // ---------------------------------------------------------------------------
  // Reference definitions

  /** The elements of `s` that are not in `xs`, in the order of `s`. */
  function Without<T(==)>(s: seq<T>, xs: seq<T>): seq<T> {
    if s == [] then []
    else Without(s[..|s| - 1], xs) + (if s[|s| - 1] in xs then [] else [s[|s| - 1]])
  }

  /** Position of the first occurrence of `x` in `xs`. */
  function FirstIndex<T(==)>(xs: seq<T>, x: T): (k: nat)
    requires x in xs
    ensures k < |xs| && xs[k] == x && x !in xs[..k]
  {
    if xs[0] == x then 0 else 1 + FirstIndex(xs[1..], x)
  }

  /** Building a set from a sequence keeps each element once, in the order of
      its first occurrence. */
  lemma {:induction false} FromSeqOrder<T>(xs: seq<T>)
    ensures NoDup(FromSeq(xs))
    ensures forall x :: x in FromSeq(xs) <==> x in xs
    ensures forall i, j :: 0 <= i < j < |FromSeq(xs)| ==>
      FirstIndex(xs, FromSeq(xs)[i]) < FirstIndex(xs, FromSeq(xs)[j])
  {
    if xs != [] {
      var ys := xs[..|xs| - 1];
      var x := xs[|xs| - 1];
      FromSeqOrder(ys);
      assert xs == ys + [x];
      var r := FromSeq(xs);
      assert r == Add(FromSeq(ys), x);
      forall y | y in ys ensures FirstIndex(xs, y) == FirstIndex(ys, y) {
        FirstIndexPrefix(ys, x, y);
      }
      if x !in FromSeq(ys) {
        assert x !in ys;
        assert FirstIndex(xs, x) == |ys| by {
          FirstIndexLast(ys, x);
        }
      }
    }
  }

  lemma {:induction false} FirstIndexPrefix<T>(ys: seq<T>, x: T, y: T)
    requires y in ys
    ensures FirstIndex(ys + [x], y) == FirstIndex(ys, y)
  {
    if ys[0] != y {
      assert (ys + [x])[1..] == ys[1..] + [x];
      FirstIndexPrefix(ys[1..], x, y);
    }
  }

  lemma {:induction false} FirstIndexLast<T>(ys: seq<T>, x: T)
    requires x !in ys
    ensures FirstIndex(ys + [x], x) == |ys|
  {
    if ys != [] {
      assert (ys + [x])[1..] == ys[1..] + [x];
      FirstIndexLast(ys[1..], x);
    }
  }

  /** Adding elements to a set never moves the ones it has: the elements of
      `xs` that are new come after them, once each, in the order of `xs`. */
  lemma {:induction false} AddAllAppends<T>(s: seq<T>, xs: seq<T>)
    ensures AddAll(s, xs) == s + FromSeq(Without(xs, s))
  {
    if xs != [] {
      var ys := xs[..|xs| - 1];
      var x := xs[|xs| - 1];
      AddAllAppends(s, ys);
      var f := FromSeq(Without(ys, s));
      assert AddAll(s, xs) == Add(s + f, x);
      if x !in s {
        var w := Without(ys, s) + [x];
        assert Without(xs, s) == w;
        assert w[..|w| - 1] == Without(ys, s);
        assert FromSeq(w) == Add(f, x);
        assert x in s + f <==> x in f;
        assert Add(s + f, x) == s + Add(f, x);
      } else {
        assert Without(xs, s) == Without(ys, s);
      }
    }
  }

  lemma {:induction false} WithoutElements<T>(s: seq<T>, xs: seq<T>)
    ensures forall y :: y in Without(s, xs) <==> y in s && y !in xs
  {
    if s != [] {
      WithoutElements(s[..|s| - 1], xs);
      assert s == s[..|s| - 1] + [s[|s| - 1]];
    }
  }

  lemma {:induction false} WithoutOfNoDup<T>(s: seq<T>, xs: seq<T>)
    requires NoDup(s)
    ensures NoDup(Without(s, xs))
  {
    if s != [] {
      WithoutOfNoDup(s[..|s| - 1], xs);
      WithoutElements(s[..|s| - 1], xs);
    }
  }

  /** Deleting elements one by one removes exactly those elements. */
  lemma {:induction false} DeleteAllIsWithout<T>(s: seq<T>, xs: seq<T>)
    ensures DeleteAll(s, xs) == Without(s, xs)
  {
    if xs != [] {
      var ys := xs[..|xs| - 1];
      var x := xs[|xs| - 1];
      DeleteAllIsWithout(s, ys);
      assert DeleteAll(s, xs) == Delete(Without(s, ys), x);
      DeleteWithout(s, ys, x);
      assert xs == ys + [x];
    } else {
      WithoutNothing(s);
    }
  }

  lemma {:induction false} DeleteWithout<T>(s: seq<T>, ys: seq<T>, x: T)
    ensures Delete(Without(s, ys), x) == Without(s, ys + [x])
  {
    if s != [] {
      var init := s[..|s| - 1];
      var last := s[|s| - 1];
      DeleteWithout(init, ys, x);
      var a := Without(init, ys);
      if last !in ys {
        assert Without(s, ys) == a + [last];
        assert (a + [last])[..|a|] == a;
        assert Delete(a + [last], x) == Delete(a, x) + (if last == x then [] else [last]);
      } else {
        assert Without(s, ys) == a;
      }
      assert last in ys + [x] <==> last in ys || last == x;
    }
  }

  lemma {:induction false} FromSeqOfNoDup<T>(s: seq<T>)
    requires NoDup(s)
    ensures FromSeq(s) == s
  {
    if s != [] {
      FromSeqOfNoDup(s[..|s| - 1]);
      assert s[|s| - 1] !in s[..|s| - 1];
    }
  }

  lemma {:induction false} WithoutNothing<T>(s: seq<T>)
    ensures Without(s, []) == s
  {
    if s != [] {
      WithoutNothing(s[..|s| - 1]);
    }
  }

  // ---------------------------------------------------------------------------
  // The operations

  /** `union(setA, setB)`: a fresh set seeded with `setA`, to which every
      element of `setB` is added. */
  method Union<T(==)>(setA: seq<T>, setB: seq<T>) returns (r: seq<T>)
    ensures r == AddAll(FromSeq(setA), setB)
    ensures NoDup(r) && forall x :: x in r <==> x in setA || x in setB
    ensures r == FromSeq(setA) + FromSeq(Without(setB, setA))
  {
    r := [];
    for i := 0 to |setA|
      invariant r == FromSeq(setA[..i])
    {
      assert setA[..i + 1][..i] == setA[..i];
      r := Add(r, setA[i]);
    }
    assert setA[..|setA|] == setA;
    ghost var start := r;
    for i := 0 to |setB|
      invariant r == AddAll(start, setB[..i])
    {
      assert setB[..i + 1][..i] == setB[..i];
      r := Add(r, setB[i]);
    }
    assert setB[..|setB|] == setB;
    UnionFacts(setA, setB);
  }

  lemma UnionFacts<T>(setA: seq<T>, setB: seq<T>)
    ensures var r := AddAll(FromSeq(setA), setB);
      && NoDup(r) && (forall x :: x in r <==> x in setA || x in setB)
      && r == FromSeq(setA) + FromSeq(Without(setB, setA))
  {
    var a := FromSeq(setA);
    FromSeqOrder(setA);
    AddAllAppends(a, setB);
    var w := Without(setB, a);
    WithoutElements(setB, a);
    FromSeqOrder(w);
    assert Without(setB, setA) == w by {
      WithoutSameElements(setB, a, setA);
    }
  }

  lemma {:induction false} WithoutSameElements<T>(s: seq<T>, xs: seq<T>, ys: seq<T>)
    requires forall x :: x in xs <==> x in ys
    ensures Without(s, xs) == Without(s, ys)
  {
    if s != [] {
      WithoutSameElements(s[..|s| - 1], xs, ys);
    }
  }

  /** `subtract(setFrom, setVal)`: a fresh set seeded with `setFrom`, from which
      every element of `setVal` is deleted. */
  method Subtract<T(==)>(setFrom: seq<T>, setVal: seq<T>) returns (r: seq<T>)
    ensures r == DeleteAll(FromSeq(setFrom), setVal)
    ensures r == Without(FromSeq(setFrom), setVal)
    ensures NoDup(r) && forall x :: x in r <==> x in setFrom && x !in setVal
  {
    r := [];
    for i := 0 to |setFrom|
      invariant r == FromSeq(setFrom[..i])
    {
      assert setFrom[..i + 1][..i] == setFrom[..i];
      r := Add(r, setFrom[i]);
    }
    assert setFrom[..|setFrom|] == setFrom;
    ghost var start := r;
    for i := 0 to |setVal|
      invariant r == DeleteAll(start, setVal[..i])
    {
      assert setVal[..i + 1][..i] == setVal[..i];
      r := Delete(r, setVal[i]);
    }
    assert setVal[..|setVal|] == setVal;
    SubtractFacts(setFrom, setVal);
  }

  lemma SubtractFacts<T>(setFrom: seq<T>, setVal: seq<T>)
    ensures var r := DeleteAll(FromSeq(setFrom), setVal);
      && r == Without(FromSeq(setFrom), setVal)
      && NoDup(r) && forall x :: x in r <==> x in setFrom && x !in setVal
  {
    var a := FromSeq(setFrom);
    FromSeqOrder(setFrom);
    DeleteAllIsWithout(a, setVal);
    WithoutElements(a, setVal);
    WithoutOfNoDup(a, setVal);
  }

  /** With an empty second argument, both operations give back a set equal to
      the first. */
  lemma EmptyArguments<T>(setA: seq<T>)
    requires NoDup(setA)
    ensures AddAll(FromSeq(setA), []) == setA
    ensures DeleteAll(FromSeq(setA), []) == setA
  {
    FromSeqOfNoDup(setA);
  }

  /** A set given as the first argument keeps its elements in front, in its own
      order, in the union; what `setB` adds follows. */
  lemma UnionOrder<T>(setA: seq<T>, setB: seq<T>)
    requires NoDup(setA)
    ensures var r := AddAll(FromSeq(setA), setB);
      && |setA| <= |r| && r[..|setA|] == setA
      && r[|setA|..] == FromSeq(Without(setB, setA))
  {
    FromSeqOfNoDup(setA);
    UnionFacts(setA, setB);
  }

  /** When the first argument is a set, subtracting keeps its order and just
      drops the deleted elements. */
  lemma SubtractOrder<T>(setFrom: seq<T>, setVal: seq<T>)
    requires NoDup(setFrom)
    ensures DeleteAll(FromSeq(setFrom), setVal) == Without(setFrom, setVal)
  {
    FromSeqOfNoDup(setFrom);
    SubtractFacts(setFrom, setVal);
  }
}
