/** Order-preserving selection. `Where(rows, keep)` is pandas' boolean-mask indexing
    `df[mask]`: the rows whose mask entry is true, in their original order. `Filter`
    is the same selection with a mask computed row by row from a condition, which is
    also what a character-class deletion such as `str.replace('[^\d]+', '')` does to
    the characters of a string. */
module Masks {

  /** `a` is obtained from `b` by deleting elements (matched greedily from the end). */
  predicate IsSubsequence<T(==)>(a: seq<T>, b: seq<T>)
    decreases |b|
  {
    if a == [] then true
    else if b == [] then false
    else if a[|a| - 1] == b[|b| - 1] then IsSubsequence(a[..|a| - 1], b[..|b| - 1])
    else IsSubsequence(a, b[..|b| - 1])
  }

  function Where<T>(rows: seq<T>, keep: seq<bool>): (r: seq<T>)
    requires |keep| == |rows|
    ensures |r| <= |rows|
    decreases |rows|
  {
    if rows == [] then []
    else
      var n := |rows| - 1;
      Where(rows[..n], keep[..n]) + (if keep[n] then [rows[n]] else [])
  }

  /** The mask `p(df)` of a row-wise condition. */
  function Mask<T>(rows: seq<T>, p: T -> bool): (keep: seq<bool>)
    ensures |keep| == |rows|
    ensures forall i :: 0 <= i < |rows| ==> keep[i] == p(rows[i])
  {
    seq(|rows|, i requires 0 <= i < |rows| => p(rows[i]))
  }

  function Filter<T>(rows: seq<T>, p: T -> bool): seq<T> {
    Where(rows, Mask(rows, p))
  }

  lemma {:induction false} SubsequenceExtend<T>(a: seq<T>, b: seq<T>, x: T)
    requires IsSubsequence(a, b)
    ensures IsSubsequence(a, b + [x])
    decreases |b|, 1
  {
    var c := b + [x];
    assert c[..|c| - 1] == b;
    if a != [] && a[|a| - 1] == x {
      SubsequenceDropLast(a, b);
    }
  }

  lemma {:induction false} SubsequenceDropLast<T>(a: seq<T>, b: seq<T>)
    requires a != [] && IsSubsequence(a, b)
    ensures IsSubsequence(a[..|a| - 1], b)
    decreases |b|, 0
  {
    var a', b' := a[..|a| - 1], b[..|b| - 1];
    assert b' + [b[|b| - 1]] == b;
    if a[|a| - 1] != b[|b| - 1] {
      SubsequenceDropLast(a, b');
    }
    SubsequenceExtend(a', b', b[|b| - 1]);
  }

  /** The selected rows keep their relative order. */
  lemma {:induction false} WhereSubsequence<T>(rows: seq<T>, keep: seq<bool>)
    requires |keep| == |rows|
    ensures IsSubsequence(Where(rows, keep), rows)
    decreases |rows|
  {
    if rows != [] {
      var n := |rows| - 1;
      var w := Where(rows[..n], keep[..n]);
      WhereSubsequence(rows[..n], keep[..n]);
      assert rows[..n] + [rows[n]] == rows;
      if keep[n] {
        var r := w + [rows[n]];
        assert r[..|r| - 1] == w;
      } else {
        assert Where(rows, keep) == w;
        SubsequenceExtend(w, rows[..n], rows[n]);
      }
    }
  }

  /** A value is selected exactly when some row holding it has a true mask entry. */
  lemma {:induction false} WhereMembers<T>(rows: seq<T>, keep: seq<bool>, x: T)
    requires |keep| == |rows|
    ensures x in Where(rows, keep) <==> exists i :: 0 <= i < |rows| && keep[i] && rows[i] == x
    decreases |rows|
  {
    if rows != [] {
      var n := |rows| - 1;
      var w := Where(rows[..n], keep[..n]);
      WhereMembers(rows[..n], keep[..n], x);
      if x in w {
        var i :| 0 <= i < n && keep[..n][i] && rows[..n][i] == x;
        assert keep[i] && rows[i] == x;
      }
      if exists i :: 0 <= i < |rows| && keep[i] && rows[i] == x {
        var i :| 0 <= i < |rows| && keep[i] && rows[i] == x;
        if i < n {
          assert keep[..n][i] && rows[..n][i] == x;
        }
      }
    }
  }

  /** Appending a row appends it to the selection exactly when it meets the condition. */
  lemma FilterSnoc<T>(rows: seq<T>, x: T, p: T -> bool)
    ensures Filter(rows + [x], p) == Filter(rows, p) + (if p(x) then [x] else [])
  {
    var s := rows + [x];
    assert s[..|rows|] == rows;
    assert Mask(s, p)[..|rows|] == Mask(rows, p);
  }

  /** Each value occurs in the selection as often as in the input when it meets the
      condition, and not at all otherwise. */
  lemma {:induction false} FilterCounts<T>(rows: seq<T>, p: T -> bool, x: T)
    ensures multiset(Filter(rows, p))[x] == if p(x) then multiset(rows)[x] else 0
    decreases |rows|
  {
    if rows != [] {
      var n := |rows| - 1;
      assert rows[..n] + [rows[n]] == rows;
      FilterSnoc(rows[..n], rows[n], p);
      FilterCounts(rows[..n], p, x);
    }
  }

  lemma FilterSatisfies<T>(rows: seq<T>, p: T -> bool)
    ensures forall x :: x in Filter(rows, p) ==> p(x) && x in rows
  {
    forall x | x in Filter(rows, p)
      ensures p(x) && x in rows
    {
      FilterCounts(rows, p, x);
    }
  }

  /** FilterCounts for every value at once. */
  lemma FilterCountsAll<T>(rows: seq<T>, p: T -> bool)
    ensures forall x :: multiset(Filter(rows, p))[x] == if p(x) then multiset(rows)[x] else 0
  {
    forall x
      ensures multiset(Filter(rows, p))[x] == if p(x) then multiset(rows)[x] else 0
    {
      FilterCounts(rows, p, x);
    }
  }

  /** Selecting from rows that all meet the condition changes nothing. */
  lemma {:induction false} FilterAllSatisfy<T>(rows: seq<T>, p: T -> bool)
    requires forall i :: 0 <= i < |rows| ==> p(rows[i])
    ensures Filter(rows, p) == rows
    decreases |rows|
  {
    if rows != [] {
      var n := |rows| - 1;
      assert rows[..n] + [rows[n]] == rows;
      FilterSnoc(rows[..n], rows[n], p);
      FilterAllSatisfy(rows[..n], p);
    }
  }

  /** Selecting from rows none of which meet the condition selects nothing. */
  lemma {:induction false} FilterNoneSatisfy<T>(rows: seq<T>, p: T -> bool)
    requires forall i :: 0 <= i < |rows| ==> !p(rows[i])
    ensures Filter(rows, p) == []
    decreases |rows|
  {
    if rows != [] {
      var n := |rows| - 1;
      assert rows[..n] + [rows[n]] == rows;
      FilterSnoc(rows[..n], rows[n], p);
      FilterNoneSatisfy(rows[..n], p);
    }
  }

  lemma {:induction false} FilterConcat<T>(a: seq<T>, b: seq<T>, p: T -> bool)
    ensures Filter(a + b, p) == Filter(a, p) + Filter(b, p)
    decreases |b|
  {
    if b == [] {
      assert a + b == a;
    } else {
      var n := |b| - 1;
      assert a + b == (a + b[..n]) + [b[n]];
      assert b[..n] + [b[n]] == b;
      FilterSnoc(a + b[..n], b[n], p);
      FilterSnoc(b[..n], b[n], p);
      FilterConcat(a, b[..n], p);
    }
  }

  /** Selecting twice by the same condition is selecting once. */
  lemma FilterIdempotent<T>(rows: seq<T>, p: T -> bool)
    ensures Filter(Filter(rows, p), p) == Filter(rows, p)
  {
    var f := Filter(rows, p);
    FilterSatisfies(rows, p);
    assert forall i :: 0 <= i < |f| ==> f[i] in f;
    FilterAllSatisfy(f, p);
  }
}
