/** The string operations of JavaScript that the modelled code relies on. */
module Text {

  /** `Array.prototype.join(sep)` on strings. */
  function Join(xs: seq<string>, sep: string): string {
    if |xs| == 0 then "" else if |xs| == 1 then xs[0] else xs[0] + sep + Join(xs[1..], sep)
  }

  /** The number of occurrences of `c` in `s`. */
  function Count(s: string, c: char): nat {
    if s == [] then 0 else (if s[0] == c then 1 else 0) + Count(s[1..], c)
  }

  /** `s` does not contain `c`. */
  predicate Free(s: string, c: char) {
    forall i :: 0 <= i < |s| ==> s[i] != c
  }

  lemma {:induction false} CountAppend(a: string, b: string, c: char)
    ensures Count(a + b, c) == Count(a, c) + Count(b, c)
  {
    if a != [] {
      assert (a + b)[0] == a[0] && (a + b)[1..] == a[1..] + b;
      CountAppend(a[1..], b, c);
    } else {
      assert a + b == b;
    }
  }

  lemma CountAppend3(a: string, b: string, d: string, c: char)
    ensures Count(a + b + d, c) == Count(a, c) + Count(b, c) + Count(d, c)
  {
    CountAppend(a, b, c);
    CountAppend(a + b, d, c);
  }

  lemma {:induction false} CountFree(s: string, c: char)
    requires Free(s, c)
    ensures Count(s, c) == 0
  {
    if s != [] {
      CountFree(s[1..], c);
    }
  }

  lemma FreeConcat(a: string, b: string, c: char)
    ensures Free(a + b, c) <==> Free(a, c) && Free(b, c)
  {
    if Free(a + b, c) {
      forall i | 0 <= i < |a| ensures a[i] != c {
        assert a[i] == (a + b)[i];
      }
      forall i | 0 <= i < |b| ensures b[i] != c {
        assert b[i] == (a + b)[|a| + i];
      }
    }
  }

  /** Joining pieces free of `c` with a separator free of `c` gives a string free of `c`. */
  lemma {:induction false} FreeJoin(xs: seq<string>, sep: string, c: char)
    requires Free(sep, c)
    requires forall i :: 0 <= i < |xs| ==> Free(xs[i], c)
    ensures Free(Join(xs, sep), c)
  {
    if |xs| > 1 {
      FreeJoin(xs[1..], sep, c);
    }
  }

  /** The occurrences of `c` over all strings of `xs`. */
  function CountAll(xs: seq<string>, c: char): nat {
    if xs == [] then 0 else Count(xs[0], c) + CountAll(xs[1..], c)
  }

  lemma {:induction false} CountAllAppend(a: seq<string>, b: seq<string>, c: char)
    ensures CountAll(a + b, c) == CountAll(a, c) + CountAll(b, c)
  {
    if a != [] {
      assert (a + b)[0] == a[0] && (a + b)[1..] == a[1..] + b;
      CountAllAppend(a[1..], b, c);
    } else {
      assert a + b == b;
    }
  }

  /** Pieces that hold one `c` each hold one `c` per piece in all. */
  lemma {:induction false} CountAllOnes(xs: seq<string>, c: char)
    requires forall i :: 0 <= i < |xs| ==> Count(xs[i], c) == 1
    ensures CountAll(xs, c) == |xs|
  {
    if xs != [] {
      CountAllOnes(xs[1..], c);
    }
  }

  /** Joining with a separator free of `c` adds no occurrence of `c`. */
  lemma {:induction false} CountJoin(xs: seq<string>, sep: string, c: char)
    requires Free(sep, c)
    ensures Count(Join(xs, sep), c) == CountAll(xs, c)
  {
    if |xs| == 1 {
      assert xs[1..] == [];
    } else if |xs| > 1 {
      CountJoin(xs[1..], sep, c);
      CountFree(sep, c);
      CountAppend(xs[0], sep, c);
      CountAppend(xs[0] + sep, Join(xs[1..], sep), c);
    }
  }

  /** A string that ends in its only `c`. */
  lemma CountLast(prefix: string, c: char)
    requires Free(prefix, c)
    ensures Count(prefix + [c], c) == 1
  {
    CountAppend(prefix, [c], c);
    CountFree(prefix, c);
    assert [c][1..] == [];
  }

  /** `String.prototype.split(c)` for a one-character separator. */
  function Split(s: string, c: char): (parts: seq<string>)
    ensures |parts| == Count(s, c) + 1
  {
    if s == [] then [""]
    else if s[0] == c then [""] + Split(s[1..], c)
    else
      var r := Split(s[1..], c);
      [[s[0]] + r[0]] + r[1..]
  }

  /** A string without the separator splits to itself. */
  lemma {:induction false} SplitFree(a: string, c: char)
    requires Free(a, c)
    ensures Split(a, c) == [a]
  {
    if a != [] {
      SplitFree(a[1..], c);
      assert [a[0]] + a[1..] == a;
    }
  }

  /** Splitting at the first separator: the part before it comes first. */
  lemma {:induction false} SplitAt(a: string, c: char, rest: string)
    requires Free(a, c)
    ensures Split(a + [c] + rest, c) == [a] + Split(rest, c)
  {
    if a == [] {
      assert a + [c] + rest == [c] + rest;
      assert ([c] + rest)[1..] == rest;
    } else {
      assert (a + [c] + rest)[1..] == a[1..] + [c] + rest;
      SplitAt(a[1..], c, rest);
      assert [a[0]] + a[1..] == a;
    }
  }

  /** `s.replace(/c/g, '')`: every occurrence of `c` removed, the rest kept in order. */
  function Remove(s: string, c: char): (r: string)
    ensures Free(r, c)
    ensures forall x :: x in r ==> x in s
    ensures Free(s, c) ==> r == s
  {
    if s == [] then ""
    else if s[0] == c then Remove(s[1..], c)
    else [s[0]] + Remove(s[1..], c)
  }

  predicate StartsWith(s: string, prefix: string) {
    |prefix| <= |s| && s[..|prefix|] == prefix
  }

  /** `String.prototype.includes`. */
  function Includes(s: string, sub: string): bool {
    StartsWith(s, sub) || (|s| > 0 && Includes(s[1..], sub))
  }

  /** `sub` occurs in `s` starting at position `i`. */
  predicate OccursAt(s: string, sub: string, i: int) {
    0 <= i <= |s| - |sub| && s[i..i + |sub|] == sub
  }

  /** `includes` holds exactly when `sub` occurs at some position of `s`. */
  lemma {:induction false} IncludesAt(s: string, sub: string)
    ensures Includes(s, sub) <==> exists i :: OccursAt(s, sub, i)
  {
    if |s| > 0 {
      IncludesAt(s[1..], sub);
      if exists i :: OccursAt(s, sub, i) {
        var i :| OccursAt(s, sub, i);
        if i > 0 {
          assert s[1..][i - 1..i - 1 + |sub|] == s[i..i + |sub|];
          assert OccursAt(s[1..], sub, i - 1);
        } else {
          assert StartsWith(s, sub);
        }
      }
      if Includes(s[1..], sub) && !StartsWith(s, sub) {
        var i :| OccursAt(s[1..], sub, i);
        assert s[i + 1..i + 1 + |sub|] == s[1..][i..i + |sub|];
        assert OccursAt(s, sub, i + 1);
      }
      if StartsWith(s, sub) {
        assert OccursAt(s, sub, 0);
      }
    } else {
      if exists i :: OccursAt(s, sub, i) {
        var i :| OccursAt(s, sub, i);
        assert sub == [];
        assert StartsWith(s, sub);
      }
      if StartsWith(s, sub) {
        assert OccursAt(s, sub, 0);
      }
    }
  }
}
