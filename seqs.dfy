/** Sequence operations the source uses through JavaScript's array methods and SQL result sets. */
module Seqs {
  import opened Wrappers

  /** `Array.prototype.filter`: the elements of `s` that satisfy `p`, in their order. */
  function Filter<T>(s: seq<T>, p: T -> bool): (r: seq<T>)
    ensures |r| <= |s|
    ensures forall x :: x in r ==> x in s && p(x)
  {
    if s == [] then [] else (if p(s[0]) then [s[0]] else []) + Filter(s[1..], p)
  }

  /** Filtering keeps every element that satisfies the predicate and only those. */
  lemma {:induction false} FilterMembership<T>(s: seq<T>, p: T -> bool, x: T)
    ensures x in Filter(s, p) <==> x in s && p(x)
  {
    if s != [] {
      FilterMembership(s[1..], p, x);
      assert s == [s[0]] + s[1..];
    }
  }

  /** Filtering a sequence one element longer: the loop step of a `forEach` that pushes matches. */
  lemma {:induction false} FilterSnoc<T>(s: seq<T>, x: T, p: T -> bool)
    ensures Filter(s + [x], p) == Filter(s, p) + (if p(x) then [x] else [])
  {
    if s == [] {
      assert [x][1..] == [];
    } else {
      assert (s + [x])[1..] == s[1..] + [x];
      FilterSnoc(s[1..], x, p);
    }
  }

  /** The conjunction of two element tests. */
  function And<T>(p: T -> bool, q: T -> bool): T -> bool {
    x => p(x) && q(x)
  }

  /** Two filters in a row keep what one filter by the conjunction keeps. */
  lemma {:induction false} FilterTwice<T>(s: seq<T>, p: T -> bool, q: T -> bool)
    ensures Filter(Filter(s, p), q) == Filter(s, And(p, q))
  {
    if s != [] {
      FilterTwice(s[1..], p, q);
      if p(s[0]) {
        assert Filter(s, p) == [s[0]] + Filter(s[1..], p);
        assert Filter(s, p)[1..] == Filter(s[1..], p);
      } else {
        assert Filter(s, p) == Filter(s[1..], p);
      }
    }
  }

  ghost predicate StrictlyIncreasing(idx: seq<int>) {
    forall j, k :: 0 <= j < k < |idx| ==> idx[j] < idx[k]
  }

  /**
   * Filtering selects elements in order: the result is `s` read at strictly
   * increasing positions, those positions are exactly the ones whose element
   * satisfies `p`.
   */
  lemma FilterSelection<T>(s: seq<T>, p: T -> bool) returns (idx: seq<int>)
    ensures |idx| == |Filter(s, p)| && StrictlyIncreasing(idx)
    ensures forall j :: 0 <= j < |idx| ==> 0 <= idx[j] < |s| && Filter(s, p)[j] == s[idx[j]]
    ensures forall i :: 0 <= i < |s| ==> (p(s[i]) <==> i in idx)
  {
    idx := Positions(s, p, 0);
    PositionsSelect(s, p, 0);
    PositionsIncreasing(s, p, 0);
    PositionsComplete(s, p, 0);
  }

  /** The positions, counted from `from`, of the elements of `s` that satisfy `p`, in increasing order. */
  function Positions<T>(s: seq<T>, p: T -> bool, from: int): (idx: seq<int>)
    ensures forall j :: 0 <= j < |idx| ==> from <= idx[j] < from + |s|
  {
    if s == [] then [] else (if p(s[0]) then [from] else []) + Positions(s[1..], p, from + 1)
  }

  lemma {:induction false} PositionsSelect<T>(s: seq<T>, p: T -> bool, from: int)
    ensures |Positions(s, p, from)| == |Filter(s, p)|
    ensures forall j :: 0 <= j < |Filter(s, p)| ==> Filter(s, p)[j] == s[Positions(s, p, from)[j] - from]
  {
    if s != [] {
      PositionsSelect(s[1..], p, from + 1);
      var hd, he := if p(s[0]) then [from] else [], if p(s[0]) then [s[0]] else [];
      assert Positions(s, p, from) == hd + Positions(s[1..], p, from + 1);
      assert Filter(s, p) == he + Filter(s[1..], p);
      PrependSelect(s, from, hd, he, Positions(s[1..], p, from + 1), Filter(s[1..], p));
    }
  }

  /** The step of `PositionsSelect`: the first element, if kept, at position `from`, then the tail's selection. */
  lemma PrependSelect<T>(s: seq<T>, from: int, hd: seq<int>, he: seq<T>, rest: seq<int>, picked: seq<T>)
    requires s != []
    requires (hd == [] && he == []) || (hd == [from] && he == [s[0]])
    requires |rest| == |picked|
    requires forall k :: 0 <= k < |rest| ==> from + 1 <= rest[k] < from + |s| && picked[k] == s[1..][rest[k] - (from + 1)]
    ensures |hd + rest| == |he + picked|
    ensures forall j :: 0 <= j < |he + picked| ==> 0 <= (hd + rest)[j] - from < |s| && (he + picked)[j] == s[(hd + rest)[j] - from]
  {
    forall j | |he| <= j < |he + picked|
      ensures 0 <= (hd + rest)[j] - from < |s| && (he + picked)[j] == s[(hd + rest)[j] - from]
    {
      var k := j - |he|;
      assert (he + picked)[j] == picked[k] && (hd + rest)[j] == rest[k];
    }
  }

  lemma {:induction false} PositionsIncreasing<T>(s: seq<T>, p: T -> bool, from: int)
    ensures StrictlyIncreasing(Positions(s, p, from))
  {
    if s != [] {
      PositionsIncreasing(s[1..], p, from + 1);
      var rest := Positions(s[1..], p, from + 1);
      if p(s[0]) {
        var idx := [from] + rest;
        assert Positions(s, p, from) == idx;
        forall j, k | 0 <= j < k < |idx|
          ensures idx[j] < idx[k]
        {
          assert idx[k] == rest[k - 1];
          if j > 0 {
            assert idx[j] == rest[j - 1];
          }
        }
      } else {
        assert Positions(s, p, from) == rest;
      }
    }
  }

  lemma {:induction false} PositionsComplete<T>(s: seq<T>, p: T -> bool, from: int)
    ensures forall i :: 0 <= i < |s| ==> (p(s[i]) <==> from + i in Positions(s, p, from))
  {
    if s != [] {
      PositionsComplete(s[1..], p, from + 1);
      var rest := Positions(s[1..], p, from + 1);
      assert Positions(s, p, from) == (if p(s[0]) then [from] else []) + rest;
      assert from !in rest;
      forall i | 1 <= i < |s|
        ensures p(s[i]) <==> from + i in Positions(s, p, from)
      {
        assert s[i] == s[1..][i - 1];
      }
    }
  }

  /** Two tests that agree on every element of `s` select the same elements. */
  lemma {:induction false} FilterExt<T>(s: seq<T>, p: T -> bool, q: T -> bool)
    requires forall i :: 0 <= i < |s| ==> p(s[i]) == q(s[i])
    ensures Filter(s, p) == Filter(s, q)
  {
    if s != [] {
      assert forall i :: 1 <= i < |s| ==> s[i] == s[1..][i - 1];
      FilterExt(s[1..], p, q);
    }
  }

  /** A test every element passes leaves the sequence as it is. */
  lemma {:induction false} FilterAll<T>(s: seq<T>, p: T -> bool)
    requires forall i :: 0 <= i < |s| ==> p(s[i])
    ensures Filter(s, p) == s
  {
    if s != [] {
      assert forall i :: 1 <= i < |s| ==> s[i] == s[1..][i - 1];
      FilterAll(s[1..], p);
      assert [s[0]] + s[1..] == s;
    }
  }

  /** Filtering drops nothing exactly when every element satisfies the predicate. */
  lemma {:induction false} FilterKeepsAll<T>(s: seq<T>, p: T -> bool)
    ensures |Filter(s, p)| == |s| <==> forall i :: 0 <= i < |s| ==> p(s[i])
  {
    if s != [] {
      FilterKeepsAll(s[1..], p);
      assert forall i :: 1 <= i < |s| ==> s[i] == s[1..][i - 1];
      if !p(s[0]) {
        assert |Filter(s, p)| == |Filter(s[1..], p)| <= |s| - 1;
      }
    }
  }

  /** `rows[0] || null`: the first row of a result set, if any. */
  function FirstOf<T>(rows: seq<T>): (r: Option<T>)
    ensures r.None? <==> rows == []
    ensures r.Some? ==> r.value == rows[0]
  {
    if |rows| > 0 then Some(rows[0]) else None
  }

  /** The first row satisfying `p` is the earliest such row; there is none exactly when no row satisfies `p`. */
  lemma {:induction false} FirstOfFilter<T>(s: seq<T>, p: T -> bool)
    ensures FirstOf(Filter(s, p)).None? <==> forall i :: 0 <= i < |s| ==> !p(s[i])
    ensures FirstOf(Filter(s, p)).Some? ==>
      exists i :: 0 <= i < |s| && s[i] == FirstOf(Filter(s, p)).value && p(s[i]) &&
        forall j :: 0 <= j < i ==> !p(s[j])
  {
    if s != [] {
      if p(s[0]) {
        assert Filter(s, p)[0] == s[0];
      } else {
        FirstOfFilter(s[1..], p);
        FirstOfFilterStep(s, p);
      }
    }
  }

  /** The step of `FirstOfFilter` past a first element that fails `p`. */
  lemma FirstOfFilterStep<T>(s: seq<T>, p: T -> bool)
    requires s != [] && !p(s[0])
    requires FirstOf(Filter(s[1..], p)).None? <==> forall i :: 0 <= i < |s[1..]| ==> !p(s[1..][i])
    requires FirstOf(Filter(s[1..], p)).Some? ==>
      exists i :: 0 <= i < |s[1..]| && s[1..][i] == FirstOf(Filter(s[1..], p)).value && p(s[1..][i]) &&
        forall j :: 0 <= j < i ==> !p(s[1..][j])
    ensures FirstOf(Filter(s, p)).None? <==> forall i :: 0 <= i < |s| ==> !p(s[i])
    ensures FirstOf(Filter(s, p)).Some? ==>
      exists i :: 0 <= i < |s| && s[i] == FirstOf(Filter(s, p)).value && p(s[i]) &&
        forall j :: 0 <= j < i ==> !p(s[j])
  {
    assert Filter(s, p) == Filter(s[1..], p);
    if FirstOf(Filter(s, p)).Some? {
      var i :| 0 <= i < |s[1..]| && s[1..][i] == FirstOf(Filter(s, p)).value && p(s[1..][i]) &&
        forall j :: 0 <= j < i ==> !p(s[1..][j]);
      assert s[i + 1] == s[1..][i];
      forall j | 0 <= j < i + 1
        ensures !p(s[j])
      {
        if j > 0 { assert s[j] == s[1..][j - 1]; }
      }
    } else {
      forall i | 0 <= i < |s|
        ensures !p(s[i])
      {
        if i > 0 { assert s[i] == s[1..][i - 1]; }
      }
    }
  }

}
