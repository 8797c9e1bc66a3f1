/** Order-preserving filtering and duplicate-free enumerations of
    sequences, used for list comprehensions and for Python `set`s. */
module Seqs {

  /** `[x for x in s if keep(x)]` */
  function Filter<T(!new)>(s: seq<T>, keep: T -> bool): (r: seq<T>)
    ensures |r| <= |s|
    ensures forall x :: x in r <==> x in s && keep(x)
    decreases |s|
  {
    if |s| == 0 then []
    else (if keep(s[0]) then [s[0]] else []) + Filter(s[1..], keep)
  }

  /** Filtering a sequence by a predicate and by its negation splits its
      multiset of elements between the two results. */
  lemma {:induction false} FilterSplitsMultiset<T(!new)>(s: seq<T>, keep: T -> bool, drop: T -> bool)
    requires forall x :: drop(x) <==> !keep(x)
    ensures multiset(Filter(s, keep)) + multiset(Filter(s, drop)) == multiset(s)
    decreases |s|
  {
    if |s| > 0 {
      FilterSplitsMultiset(s[1..], keep, drop);
      assert s == [s[0]] + s[1..];
    }
  }

  /** Filtering a duplicate-free sequence keeps it duplicate-free. */
  lemma {:induction false} FilterNoDuplicates<T(!new)>(s: seq<T>, keep: T -> bool)
    requires NoDuplicates(s)
    ensures NoDuplicates(Filter(s, keep))
    decreases |s|
  {
    if |s| > 0 {
      assert NoDuplicates(s[1..]) by {
        forall i, j | 0 <= i < j < |s[1..]|
          ensures s[1..][i] != s[1..][j]
        {
          assert s[1..][i] == s[i + 1] && s[1..][j] == s[j + 1];
        }
      }
      FilterNoDuplicates(s[1..], keep);
      var rest := Filter(s[1..], keep);
      if keep(s[0]) {
        assert s[0] !in s[1..] by {
          forall k | 0 <= k < |s[1..]|
            ensures s[1..][k] != s[0]
          {
            assert s[1..][k] == s[k + 1];
          }
        }
        assert s[0] !in rest;
        var r := [s[0]] + rest;
        forall i, j | 0 <= i < j < |r|
          ensures r[i] != r[j]
        {
          if i == 0 {
            assert r[j] == rest[j - 1] && r[j] in rest;
          } else {
            assert r[i] == rest[i - 1] && r[j] == rest[j - 1];
          }
        }
      } else {
        assert Filter(s, keep) == rest;
      }
    }
  }

  predicate NoDuplicates<T(==)>(s: seq<T>) {
    forall i, j :: 0 <= i < j < |s| ==> s[i] != s[j]
  }

  /** `order` lists each element of `s` exactly once: one iteration order
      of `set(s)`. */
  predicate Enumerates<T(==)>(order: seq<T>, s: seq<T>) {
    && NoDuplicates(order)
    && (forall x | x in order :: x in s)
    && (forall x | x in s :: x in order)
  }

  /** The elements of `s` in first-occurrence order; one iteration order a
      Python `set` built from `s` may have. */
  function Dedupe<T(==)>(s: seq<T>): (r: seq<T>)
    ensures Enumerates(r, s)
    decreases |s|
  {
    if |s| == 0 then []
    else
      var rest := Dedupe(s[..|s| - 1]);
      var last := s[|s| - 1];
      assert s == s[..|s| - 1] + [last];
      if last in rest then rest
      else
        var r := rest + [last];
        assert forall i :: 0 <= i < |rest| ==> r[i] == rest[i];
        r
  }

  /** Filtering distributes over concatenation. */
  lemma {:induction false} FilterConcat<T(!new)>(a: seq<T>, b: seq<T>, keep: T -> bool)
    ensures Filter(a + b, keep) == Filter(a, keep) + Filter(b, keep)
    decreases |a|
  {
    if |a| > 0 {
      assert (a + b)[1..] == a[1..] + b;
      FilterConcat(a[1..], b, keep);
    } else {
      assert a + b == b;
    }
  }

  /** A filter that keeps every element is the identity. */
  lemma {:induction false} FilterKeepsAll<T(!new)>(s: seq<T>, keep: T -> bool)
    requires forall i :: 0 <= i < |s| ==> keep(s[i])
    ensures Filter(s, keep) == s
    decreases |s|
  {
    if |s| > 0 {
      FilterKeepsAll(s[1..], keep);
      assert s == [s[0]] + s[1..];
    }
  }

  /** A filter that keeps no element gives nothing. */
  lemma {:induction false} FilterKeepsNone<T(!new)>(s: seq<T>, keep: T -> bool)
    requires forall i :: 0 <= i < |s| ==> !keep(s[i])
    ensures Filter(s, keep) == []
    decreases |s|
  {
    if |s| > 0 {
      FilterKeepsNone(s[1..], keep);
    }
  }

  /** The first element a filter keeps is the element at the first
      position whose element the predicate keeps. */
  lemma {:induction false} FilterHead<T(!new)>(s: seq<T>, keep: T -> bool)
    requires |Filter(s, keep)| > 0
    ensures exists k :: 0 <= k < |s| && keep(s[k]) && Filter(s, keep)[0] == s[k]
                        && forall j :: 0 <= j < k ==> !keep(s[j])
    decreases |s|
  {
    if !keep(s[0]) {
      FilterHead(s[1..], keep);
      var k :| 0 <= k < |s[1..]| && keep(s[1..][k]) && Filter(s[1..], keep)[0] == s[1..][k]
               && forall j :: 0 <= j < k ==> !keep(s[1..][j]);
      assert s[k + 1] == s[1..][k];
      forall j | 0 <= j < k + 1
        ensures !keep(s[j])
      {
        if j > 0 {
          assert s[j] == s[1..][j - 1];
        }
      }
    } else {
      assert Filter(s, keep)[0] == s[0];
    }
  }
}
