/** `sorted(S)` for a Python set of strings `S`: the list of the members of
    `S` in ascending `str` order, each once. A set has no order of its own, so
    the model builds the list from any sequence that enumerates the set and
    proves that the list depends on the set alone. */
module Sorting {
  import opened PyStr

  function Elems(s: seq<string>): set<string> {
    set x | x in s
  }

  lemma ElemsCons(h: string, t: seq<string>)
    ensures Elems([h] + t) == {h} + Elems(t)
  {
  }

  /** Ascending and free of duplicates. */
  predicate StrictlySorted(s: seq<string>) {
    forall i, j :: 0 <= i < j < |s| ==> Less(s[i], s[j])
  }

  /** `r` is `sorted(S)`. */
  predicate IsSortedListOf(r: seq<string>, S: set<string>) {
    StrictlySorted(r) && Elems(r) == S
  }

  lemma SortedCons(h: string, t: seq<string>)
    ensures StrictlySorted([h] + t) <==>
      (forall y :: y in t ==> Less(h, y)) && StrictlySorted(t)
  {
    var s := [h] + t;
    if (forall y :: y in t ==> Less(h, y)) && StrictlySorted(t) {
      forall i, j | 0 <= i < j < |s| ensures Less(s[i], s[j]) {
        if i > 0 { assert s[i] == t[i - 1] && s[j] == t[j - 1]; } else { assert s[j] in t; }
      }
    }
    if StrictlySorted(s) {
      forall y | y in t ensures Less(h, y) {
        var k :| 0 <= k < |t| && t[k] == y;
        assert s[0] == h && s[k + 1] == y;
      }
      forall i, j | 0 <= i < j < |t| ensures Less(t[i], t[j]) {
        assert s[i + 1] == t[i] && s[j + 1] == t[j];
      }
    }
  }

  /** Adds `x` to a sorted list unless it is already there. */
  function Insert(x: string, s: seq<string>): (r: seq<string>)
    requires StrictlySorted(s)
    ensures StrictlySorted(r)
    ensures Elems(r) == Elems(s) + {x}
  {
    if s == [] then [x]
    else if x == s[0] then s
    else if Less(x, s[0]) then
      SortedCons(x, s);
      assert s == [s[0]] + s[1..];
      SortedCons(s[0], s[1..]);
      forall y | y in s ensures Less(x, y) {
        if y != s[0] { LessTransitive(x, s[0], y); }
      }
      [x] + s
    else
      LessTotal(x, s[0]);
      assert s == [s[0]] + s[1..];
      SortedCons(s[0], s[1..]);
      var rest := Insert(x, s[1..]);
      forall y | y in rest ensures Less(s[0], y) {
        assert y in Elems(rest);
      }
      SortedCons(s[0], rest);
      ElemsCons(s[0], rest);
      ElemsCons(s[0], s[1..]);
      [s[0]] + rest
  }

  /** `sorted(set(xs))`. */
  function SortedElems(xs: seq<string>): (r: seq<string>)
    ensures IsSortedListOf(r, Elems(xs))
  {
    if xs == [] then []
    else
      var r := Insert(xs[|xs| - 1], SortedElems(xs[..|xs| - 1]));
      assert xs == xs[..|xs| - 1] + [xs[|xs| - 1]];
      r
  }

  /** There is only one sorted list of a set, so `SortedElems(xs)` is
      determined by the set `xs` enumerates and not by its order or repeats. */
  lemma {:induction false} SortedListUnique(r1: seq<string>, r2: seq<string>, S: set<string>)
    requires IsSortedListOf(r1, S) && IsSortedListOf(r2, S)
    ensures r1 == r2
    decreases |r1|
  {
    assert r1 != [] ==> r1[0] in Elems(r1);
    assert r2 != [] ==> r2[0] in Elems(r2);
    if r1 != [] && r2 != [] {
      assert r1 == [r1[0]] + r1[1..] && r2 == [r2[0]] + r2[1..];
      SortedCons(r1[0], r1[1..]);
      SortedCons(r2[0], r2[1..]);
      if r1[0] != r2[0] {
        assert r1[0] in Elems(r2) && r2[0] in Elems(r1);
        ElemsCons(r1[0], r1[1..]);
        ElemsCons(r2[0], r2[1..]);
        assert r1[0] in r2[1..] && r2[0] in r1[1..];
        LessAsymmetric(r1[0], r2[0]);
        assert false;
      }
      LessIrreflexive(r1[0]);
      assert Elems(r1[1..]) == S - {r1[0]};
      assert Elems(r2[1..]) == S - {r1[0]};
      SortedListUnique(r1[1..], r2[1..], S - {r1[0]});
    }
  }

  lemma SortedElemsCanonical(xs: seq<string>, ys: seq<string>)
    requires Elems(xs) == Elems(ys)
    ensures SortedElems(xs) == SortedElems(ys)
  {
    SortedListUnique(SortedElems(xs), SortedElems(ys), Elems(xs));
  }

  /** A sorted list holds each member of its set once. */
  lemma {:induction false} SortedLength(r: seq<string>)
    requires StrictlySorted(r)
    ensures |Elems(r)| == |r|
  {
    if r != [] {
      assert r == [r[0]] + r[1..];
      SortedCons(r[0], r[1..]);
      LessIrreflexive(r[0]);
      assert Elems(r) == {r[0]} + Elems(r[1..]);
      assert r[0] !in Elems(r[1..]);
      SortedLength(r[1..]);
    }
  }

  /** The members of `xs` that are in `S`, in their order in `xs`. */
  function Keep(xs: seq<string>, S: set<string>): (r: seq<string>)
    ensures Elems(r) == Elems(xs) * S
    ensures StrictlySorted(xs) ==> StrictlySorted(r)
  {
    if xs == [] then []
    else
      var rest := Keep(xs[1..], S);
      assert xs == [xs[0]] + xs[1..];
      SortedCons(xs[0], xs[1..]);
      ElemsCons(xs[0], xs[1..]);
      if xs[0] in S then
        ElemsCons(xs[0], rest);
        forall y | y in rest ensures StrictlySorted(xs) ==> Less(xs[0], y) {
          assert y in Elems(rest);
        }
        SortedCons(xs[0], rest);
        [xs[0]] + rest
      else rest
  }

  /** The members of `xs` that are not in `S`, in their order in `xs`. */
  function Drop(xs: seq<string>, S: set<string>): (r: seq<string>)
    ensures Elems(r) == Elems(xs) - S
    ensures StrictlySorted(xs) ==> StrictlySorted(r)
  {
    if xs == [] then []
    else
      var rest := Drop(xs[1..], S);
      assert xs == [xs[0]] + xs[1..];
      SortedCons(xs[0], xs[1..]);
      ElemsCons(xs[0], xs[1..]);
      if xs[0] !in S then
        ElemsCons(xs[0], rest);
        forall y | y in rest ensures StrictlySorted(xs) ==> Less(xs[0], y) {
          assert y in Elems(rest);
        }
        SortedCons(xs[0], rest);
        [xs[0]] + rest
      else rest
  }
}
