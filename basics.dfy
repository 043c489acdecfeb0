/** Small sequence vocabulary shared by the rest of the model: an optional
    value, an order-preserving filter (a Python list comprehension with an
    `if`), the first element that satisfies a test (`next(...)` over a
    generator, or a `for` loop that returns on the first hit), and
    first-occurrence de-duplication (`list(dict.fromkeys(xs))`). */
module Basics {

  datatype Option<+T> = None | Some(value: T) {
    /** The value, or `default` when there is none. */
    function GetOr(default: T): T {
      match this
      case Some(v) => v
      case None => default
    }

    /** This option when it holds a value, otherwise `other`: how
        `dict.update` lets a key that is present override an old value. */
    function OrElse(other: Option<T>): Option<T> {
      if Some? then this else other
    }
  }

  /** `[x for x in s if keep(x)]`, built from the back so that a loop that
      walks `s` forwards can carry `Filter(s[..i], keep)` as its invariant. */
  function Filter<T(!new)>(s: seq<T>, keep: T -> bool): (r: seq<T>)
    ensures |r| <= |s|
    ensures forall i :: 0 <= i < |r| ==> keep(r[i])
    ensures forall x :: x in r <==> x in s && keep(x)
  {
    if s == [] then []
    else
      var r := Filter(s[..|s| - 1], keep);
      assert forall x :: x in s <==> x in s[..|s| - 1] || x == s[|s| - 1];
      if keep(s[|s| - 1]) then r + [s[|s| - 1]] else r
  }

  /** Filtering keeps each element exactly as often as it occurs, or drops
      it entirely. */
  lemma {:induction false} FilterMultiset<T(!new)>(s: seq<T>, keep: T -> bool, x: T)
    ensures multiset(Filter(s, keep))[x] == if keep(x) then multiset(s)[x] else 0
  {
    if s != [] {
      var init := s[..|s| - 1];
      FilterMultiset(init, keep, x);
      assert s == init + [s[|s| - 1]];
    }
  }

  lemma {:induction false} FilterConcat<T(!new)>(a: seq<T>, b: seq<T>, keep: T -> bool)
    ensures Filter(a + b, keep) == Filter(a, keep) + Filter(b, keep)
  {
    if b != [] {
      var init := b[..|b| - 1];
      FilterConcat(a, init, keep);
      var last := b[|b| - 1];
      assert (a + b)[..|a + b| - 1] == a + init;
      assert (a + b)[|a + b| - 1] == last;
      assert Filter(a + b, keep) == Filter(a + init, keep) + (if keep(last) then [last] else []);
      assert Filter(b, keep) == Filter(init, keep) + (if keep(last) then [last] else []);
    } else {
      assert a + b == a;
    }
  }

  /** A filter drops something exactly when some element fails the test. */
  lemma {:induction false} FilterShrinks<T(!new)>(s: seq<T>, keep: T -> bool)
    ensures |Filter(s, keep)| < |s| <==> exists i :: 0 <= i < |s| && !keep(s[i])
  {
    if s != [] {
      var init := s[..|s| - 1];
      FilterShrinks(init, keep);
      if exists i :: 0 <= i < |init| && !keep(init[i]) {
        var i :| 0 <= i < |init| && !keep(init[i]);
        assert s[i] == init[i];
      }
    }
  }

  /** Filtering with a test that holds of every element changes nothing. */
  lemma {:induction false} FilterKeepsAll<T(!new)>(s: seq<T>, keep: T -> bool)
    requires forall i :: 0 <= i < |s| ==> keep(s[i])
    ensures Filter(s, keep) == s
  {
    if s != [] {
      FilterKeepsAll(s[..|s| - 1], keep);
      assert s == s[..|s| - 1] + [s[|s| - 1]];
    }
  }

  /** Filtering with a test that fails on every element leaves nothing. */
  lemma {:induction false} FilterKeepsNone<T(!new)>(s: seq<T>, keep: T -> bool)
    requires forall i :: 0 <= i < |s| ==> !keep(s[i])
    ensures Filter(s, keep) == []
  {
    if s != [] {
      FilterKeepsNone(s[..|s| - 1], keep);
    }
  }

  /** The index of the first element that passes `test`, if any. */
  function FirstWhere<T>(s: seq<T>, test: T -> bool): (r: Option<nat>)
    ensures r.Some? ==> r.value < |s| && test(s[r.value])
    ensures r.Some? ==> forall j :: 0 <= j < r.value ==> !test(s[j])
    ensures r.None? <==> forall j :: 0 <= j < |s| ==> !test(s[j])
  {
    if s == [] then None
    else if test(s[0]) then Some(0)
    else
      match FirstWhere(s[1..], test)
      case None => None
      case Some(k) => Some(k + 1)
  }

  predicate NoDup<T(==)>(s: seq<T>) {
    forall i, j :: 0 <= i < j < |s| ==> s[i] != s[j]
  }

  /** `list(dict.fromkeys(s))`: each element once, at the place of its first
      occurrence; a later repeat of a key leaves the key where it is. */
  function Dedup<T(==,!new)>(s: seq<T>): (r: seq<T>)
    ensures NoDup(r)
    ensures forall x :: x in r <==> x in s
  {
    if s == [] then []
    else
      var r := Dedup(s[..|s| - 1]);
      assert forall x :: x in s <==> x in s[..|s| - 1] || x == s[|s| - 1];
      if s[|s| - 1] in r then r else r + [s[|s| - 1]]
  }
}
