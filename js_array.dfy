/**
 * The parts of the JavaScript `Array` built-ins that the two command files call.
 *
 * Pure uses (`filter`, `find`, `indexOf`) are functions on sequences. An array that
 * the source mutates in place, and may reach through more than one variable, is an
 * object of class `JsArray`, so that two variables holding the same array share its
 * updates exactly as they do in JavaScript.
 */
module JsArray {
  import opened Wrappers

  /** `a` is `b` with some elements dropped, the rest kept in order. */
  ghost predicate SubsequenceOf<T>(a: seq<T>, b: seq<T>)
    decreases |b|
  {
    if a == [] then true
    else if b == [] then false
    else (a[0] == b[0] && SubsequenceOf(a[1..], b[1..])) || SubsequenceOf(a, b[1..])
  }

  /** `filter`: the elements satisfying `p`, in their original order. */
  function Filter<T>(s: seq<T>, p: T -> bool): (r: seq<T>)
    ensures |r| <= |s|
  {
    if s == [] then []
    else if p(s[0]) then [s[0]] + Filter(s[1..], p)
    else Filter(s[1..], p)
  }

  /** A filter keeps exactly the elements satisfying `p`, and everything when they
      all do. */
  lemma FilterSpec<T>(s: seq<T>, p: T -> bool)
    ensures var r := Filter(s, p);
            (forall i :: 0 <= i < |r| ==> r[i] in s && p(r[i]))
            && (forall i :: 0 <= i < |s| && p(s[i]) ==> s[i] in r)
            && ((forall i :: 0 <= i < |s| ==> p(s[i])) ==> r == s)
  {
    FilterSound(s, p);
    FilterComplete(s, p);
    if forall i :: 0 <= i < |s| ==> p(s[i]) {
      FilterAllPass(s, p);
    }
  }

  /** Everything a filter keeps comes from `s` and satisfies `p`. */
  lemma {:induction false} FilterSound<T>(s: seq<T>, p: T -> bool)
    ensures forall i :: 0 <= i < |Filter(s, p)| ==> Filter(s, p)[i] in s && p(Filter(s, p)[i])
  {
    if s != [] {
      var r, t := Filter(s, p), Filter(s[1..], p);
      FilterSound(s[1..], p);
      forall i | 0 <= i < |r| ensures r[i] in s && p(r[i]) {
        if p(s[0]) {
          assert r == [s[0]] + t;
          if i > 0 { assert r[i] == t[i - 1] && t[i - 1] in s[1..]; }
        } else {
          assert r == t && r[i] in s[1..];
        }
      }
    }
  }

  /** Every element of `s` satisfying `p` is kept. */
  lemma {:induction false} FilterComplete<T>(s: seq<T>, p: T -> bool)
    ensures forall i :: 0 <= i < |s| && p(s[i]) ==> s[i] in Filter(s, p)
  {
    if s != [] {
      var r, t := Filter(s, p), Filter(s[1..], p);
      FilterComplete(s[1..], p);
      forall i | 0 <= i < |s| && p(s[i]) ensures s[i] in r {
        if i > 0 {
          assert s[i] == s[1..][i - 1] && s[i] in t;
          if p(s[0]) { assert r == [s[0]] + t; } else { assert r == t; }
        } else {
          assert r == [s[0]] + t;
        }
      }
    }
  }

  /** When every element satisfies `p`, the filter keeps the whole of `s`. */
  lemma {:induction false} FilterAllPass<T>(s: seq<T>, p: T -> bool)
    requires forall i :: 0 <= i < |s| ==> p(s[i])
    ensures Filter(s, p) == s
  {
    if s != [] {
      assert forall i :: 0 <= i < |s[1..]| ==> p(s[1..][i]) by {
        forall i | 0 <= i < |s[1..]| ensures p(s[1..][i]) { assert s[1..][i] == s[i + 1]; }
      }
      FilterAllPass(s[1..], p);
      assert p(s[0]) && s == [s[0]] + s[1..];
    }
  }

  /** What a filter keeps stays in its original order. */
  lemma {:induction false} FilterIsSubsequence<T>(s: seq<T>, p: T -> bool)
    ensures SubsequenceOf(Filter(s, p), s)
  {
    if s != [] {
      FilterIsSubsequence(s[1..], p);
      if p(s[0]) {
        assert Filter(s, p)[0] == s[0] && Filter(s, p)[1..] == Filter(s[1..], p);
      }
    }
  }

  /** Filtering a concatenation filters each part. */
  lemma {:induction false} FilterAppend<T>(a: seq<T>, b: seq<T>, p: T -> bool)
    ensures Filter(a + b, p) == Filter(a, p) + Filter(b, p)
  {
    if a != [] {
      assert (a + b)[0] == a[0] && (a + b)[1..] == a[1..] + b;
      FilterAppend(a[1..], b, p);
      var head := if p(a[0]) then [a[0]] else [];
      assert Filter(a + b, p) == head + Filter(a[1..] + b, p);
      assert Filter(a, p) == head + Filter(a[1..], p);
    } else {
      assert a + b == b;
    }
  }

  /** Filtering drops a single failing element between two runs that pass. */
  lemma FilterDropsOne<T>(a: seq<T>, x: T, b: seq<T>, p: T -> bool)
    requires forall i :: 0 <= i < |a| ==> p(a[i])
    requires !p(x)
    requires forall i :: 0 <= i < |b| ==> p(b[i])
    ensures Filter(a + [x] + b, p) == a + b
  {
    assert a + [x] + b == a + ([x] + b);
    FilterAppend(a, [x] + b, p);
    FilterAllPass(a, p);
    FilterAllPass(b, p);
    assert Filter([x] + b, p) == Filter(b, p) by {
      assert ([x] + b)[0] == x && ([x] + b)[1..] == b;
    }
  }

  /** How often each value survives a filter: all its occurrences if it satisfies
      `p`, none otherwise. */
  lemma {:induction false} FilterCount<T>(s: seq<T>, p: T -> bool)
    ensures forall x :: multiset(Filter(s, p))[x] == if p(x) then multiset(s)[x] else 0
  {
    if s != [] {
      FilterCount(s[1..], p);
      assert multiset(s) == multiset{s[0]} + multiset(s[1..]) by {
        assert s == [s[0]] + s[1..];
      }
      if p(s[0]) {
        assert multiset(Filter(s, p)) == multiset{s[0]} + multiset(Filter(s[1..], p));
      }
    }
  }

  /** `find`: the first element satisfying `p`, or `undefined`. */
  function Find<T>(s: seq<T>, p: T -> bool): (r: Option<T>)
    ensures r.Some? ==> exists i :: (0 <= i < |s| && s[i] == r.value && p(s[i])
                                     && forall j :: 0 <= j < i ==> !p(s[j]))
    ensures r.None? <==> forall i :: 0 <= i < |s| ==> !p(s[i])
  {
    if s == [] then None
    else if p(s[0]) then Some(s[0])
    else
      var r := Find(s[1..], p);
      assert forall i :: 1 <= i < |s| ==> s[i] == s[1..][i - 1];
      r
  }

  /** `indexOf` on an array: the first position holding `x`, or -1. */
  function IndexOfElement<T(==)>(s: seq<T>, x: T): (r: int)
    ensures -1 <= r && (r == -1 <==> x !in s)
    ensures 0 <= r ==> r < |s| && s[r] == x && x !in s[..r]
  {
    if s == [] then -1
    else if s[0] == x then 0
    else
      var r := IndexOfElement(s[1..], x);
      if r == -1 then -1 else (assert s[..r + 1] == [s[0]] + s[1..][..r]; r + 1)
  }

  /** A JavaScript array whose contents change in place. */
  class JsArray<T> {
    var elems: seq<T>

    constructor (init: seq<T>)
      ensures elems == init
    {
      elems := init;
    }

    /** `shift`: removes and returns the first element, `undefined` on an empty array. */
    method Shift() returns (x: Option<T>)
      modifies this
      ensures old(elems) == [] ==> x == None && elems == []
      ensures old(elems) != [] ==> x == Some(old(elems)[0]) && elems == old(elems)[1..]
    {
      if elems == [] {
        x := None;
      } else {
        x := Some(elems[0]);
        elems := elems[1..];
      }
    }
  }
}
