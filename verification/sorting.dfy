/** An insertion sort driven by a "may precede" comparator, the shape of
    `Array.prototype.sort(cmp)` with `le(a, b)` meaning `cmp(a, b) <= 0`. */
module Sorting {
  import opened Common

  /** `s` is ordered by `key`: every earlier element may precede every later one. */
  ghost predicate SortedBy<T>(s: seq<T>, key: (T, T) -> bool) {
    forall i, j :: 0 <= i < j < |s| ==> key(s[i], s[j])
  }

  /** `key` is total and transitive on the elements of `xs`. */
  ghost predicate TotalPreorderOn<T>(xs: seq<T>, key: (T, T) -> bool) {
    && (forall a, b :: a in xs && b in xs ==> key(a, b) || key(b, a))
    && (forall a, b, c :: a in xs && b in xs && c in xs && key(a, b) && key(b, c) ==> key(a, c))
  }

  /** On the elements of `xs`, the comparator `le` agrees with the preorder `key`:
      it never places an element before one with a strictly smaller key. */
  ghost predicate RefinesOn<T>(xs: seq<T>, le: (T, T) -> bool, key: (T, T) -> bool) {
    forall a, b :: a in xs && b in xs ==> (le(a, b) ==> key(a, b)) && (!key(b, a) ==> le(a, b))
  }

  /** Inserts `x` after the leading run of elements that may precede it. */
  function Insert<T>(x: T, s: seq<T>, le: (T, T) -> bool): (r: seq<T>)
    ensures multiset(r) == multiset(s) + multiset{x}
    ensures |r| == |s| + 1
    decreases |s|
  {
    if |s| == 0 then [x]
    else if le(s[0], x) then
      assert s == [s[0]] + s[1..];
      [s[0]] + Insert(x, s[1..], le)
    else [x] + s
  }

  /** Sorts `s`, inserting each element after the ones already placed that may precede it. */
  function SortBy<T>(s: seq<T>, le: (T, T) -> bool): (r: seq<T>)
    ensures multiset(r) == multiset(s)
    ensures |r| == |s|
    decreases |s|
  {
    if |s| == 0 then []
    else
      assert s == s[..|s| - 1] + [s[|s| - 1]];
      Insert(s[|s| - 1], SortBy(s[..|s| - 1], le), le)
  }

  /** Two sequences with the same multiset have the same elements. */
  lemma SameElements<T>(a: seq<T>, b: seq<T>)
    requires multiset(a) == multiset(b)
    ensures forall x :: x in a <==> x in b
  {
    forall x ensures x in a <==> x in b {
      assert x in a <==> x in multiset(a);
      assert x in b <==> x in multiset(b);
    }
  }

  /** Placing `x` in front of `t` keeps the order when `x` may precede `t`'s head. */
  lemma InsertFrontSorted<T>(x: T, t: seq<T>, key: (T, T) -> bool, xs: seq<T>)
    requires SortedBy(t, key) && |t| > 0 && key(x, t[0])
    requires x in xs && forall y :: y in t ==> y in xs
    requires TotalPreorderOn(xs, key)
    ensures SortedBy([x] + t, key)
  {
    var r := [x] + t;
    forall j | 1 < j < |r| ensures key(x, r[j]) {
      assert r[j] == t[j - 1];
      assert key(t[0], t[j - 1]);
      assert t[0] in t && t[j - 1] in t;
    }
    forall i, j | 0 <= i < j < |r| ensures key(r[i], r[j]) {
      if i > 0 {
        assert r[i] == t[i - 1] && r[j] == t[j - 1];
      }
    }
  }

  /** Keeping `t`'s head in front of a sorted tail keeps the order when the head
      may precede everything in the tail. */
  lemma ConsSorted<T>(h: T, rest: seq<T>, key: (T, T) -> bool)
    requires SortedBy(rest, key)
    requires forall y :: y in rest ==> key(h, y)
    ensures SortedBy([h] + rest, key)
  {
    var r := [h] + rest;
    forall i, j | 0 <= i < j < |r| ensures key(r[i], r[j]) {
      if i == 0 {
        assert r[j] == rest[j - 1];
        assert rest[j - 1] in rest;
      } else {
        assert r[i] == rest[i - 1] && r[j] == rest[j - 1];
      }
    }
  }

  lemma TailSorted<T>(t: seq<T>, key: (T, T) -> bool)
    requires SortedBy(t, key) && |t| > 0
    ensures SortedBy(t[1..], key)
    ensures forall y :: y in t[1..] ==> key(t[0], y)
  {
    forall i, j | 0 <= i < j < |t[1..]| ensures key(t[1..][i], t[1..][j]) {
      assert t[1..][i] == t[i + 1] && t[1..][j] == t[j + 1];
    }
    forall y | y in t[1..] ensures key(t[0], y) {
      var j :| 0 <= j < |t[1..]| && t[1..][j] == y;
      assert t[j + 1] == y;
    }
  }

  lemma {:induction false} InsertSorted<T>(x: T, t: seq<T>, le: (T, T) -> bool, key: (T, T) -> bool, xs: seq<T>)
    requires SortedBy(t, key)
    requires x in xs && forall y :: y in t ==> y in xs
    requires TotalPreorderOn(xs, key) && RefinesOn(xs, le, key)
    ensures SortedBy(Insert(x, t, le), key)
    decreases |t|
  {
    if |t| == 0 {
    } else if le(t[0], x) {
      assert t[0] in t;
      TailSorted(t, key);
      var rest := Insert(x, t[1..], le);
      InsertSorted(x, t[1..], le, key, xs);
      forall y | y in rest ensures key(t[0], y) {
        assert y in multiset(rest);
        if y != x {
          assert y in multiset(t[1..]);
        }
      }
      ConsSorted(t[0], rest, key);
    } else {
      assert t[0] in t;
      InsertFrontSorted(x, t, key, xs);
    }
  }

  /** Sorting by a comparator that refines a total preorder yields a sequence
      ordered by that preorder. */
  lemma {:induction false} SortBySorted<T>(s: seq<T>, le: (T, T) -> bool, key: (T, T) -> bool)
    requires TotalPreorderOn(s, key) && RefinesOn(s, le, key)
    ensures SortedBy(SortBy(s, le), key)
    decreases |s|
  {
    if |s| > 0 {
      var pre := s[..|s| - 1];
      assert forall y :: y in pre ==> y in s;
      SortBySorted(pre, le, key);
      var t := SortBy(pre, le);
      forall y | y in t ensures y in s {
        assert y in multiset(t);
        assert y in multiset(pre);
      }
      InsertSorted(s[|s| - 1], t, le, key, s);
    }
  }

  /** A comparator that is itself a total preorder sorts by itself. */
  lemma SortBySortedSelf<T>(s: seq<T>, le: (T, T) -> bool)
    requires TotalPreorderOn(s, le)
    ensures SortedBy(SortBy(s, le), le)
  {
    SortBySorted(s, le, le);
  }

  /** Inserting adds the inserted element's weight to any sum. */
  lemma {:induction false} InsertSum<T>(x: T, s: seq<T>, le: (T, T) -> bool, f: T -> nat)
    ensures SumOf(Insert(x, s, le), f) == f(x) + SumOf(s, f)
    decreases |s|
  {
    if |s| > 0 && le(s[0], x) {
      InsertSum(x, s[1..], le, f);
    }
  }

  /** Sorting does not change a sum. */
  lemma {:induction false} SortBySum<T>(s: seq<T>, le: (T, T) -> bool, f: T -> nat)
    ensures SumOf(SortBy(s, le), f) == SumOf(s, f)
    decreases |s|
  {
    if |s| > 0 {
      var pre, last := s[..|s| - 1], s[|s| - 1];
      assert s == pre + [last];
      assert SortBy(s, le) == Insert(last, SortBy(pre, le), le);
      SortBySum(pre, le, f);
      InsertSum(last, SortBy(pre, le), le, f);
      SumOfAppend(pre, [last], f);
      assert SumOf([last], f) == f(last);
    }
  }

  /** Keeping only some elements keeps them in order. */
  lemma {:induction false} FilterSorted<T(!new)>(s: seq<T>, p: T -> bool, key: (T, T) -> bool)
    requires SortedBy(s, key)
    ensures SortedBy(Filter(s, p), key)
    decreases |s|
  {
    if |s| > 0 {
      TailSorted(s, key);
      FilterSorted(s[1..], p, key);
      if p(s[0]) {
        ConsSorted(s[0], Filter(s[1..], p), key);
      }
    }
  }
}
