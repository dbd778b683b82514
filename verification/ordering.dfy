/** Option, the code-unit order on texts, and sorting by a text key.
    The order is the one of JavaScript's default `sort()` and of SQLite's BINARY collation
    (for the ASCII texts that the program compares: addresses and timestamps). */
module Ordering {

  datatype Option<+T> = None | Some(value: T)

  /** `a` comes strictly before `b`. */
  predicate Less(a: string, b: string) {
    |b| > 0 && (|a| == 0 || a[0] < b[0] || (a[0] == b[0] && Less(a[1..], b[1..])))
  }

  predicate AtMost(a: string, b: string) { !Less(b, a) }

  lemma {:induction false} LessIrreflexive(a: string)
    ensures !Less(a, a)
  {
    if |a| == 0 {
    } else {
      LessIrreflexive(a[1..]);
    }
  }

  lemma {:induction false} LessTransitive(a: string, b: string, c: string)
    requires Less(a, b) && Less(b, c)
    ensures Less(a, c)
  {
    if a == "" || !(a[0] == b[0] == c[0]) {
    } else {
      LessTransitive(a[1..], b[1..], c[1..]);
    }
  }

  lemma {:induction false} LessTotal(a: string, b: string)
    ensures Less(a, b) || a == b || Less(b, a)
  {
    if a == "" || b == "" || a[0] != b[0] {
    } else {
      LessTotal(a[1..], b[1..]);
      if a[1..] == b[1..] { assert a == [a[0]] + a[1..] && b == [b[0]] + b[1..]; }
    }
  }

  /** At `k` the texts first differ: there `a` ends or has the smaller character. */
  ghost predicate SmallerAt(a: string, b: string, k: nat) {
    k <= |a| && k < |b| && (forall i :: 0 <= i < k ==> a[i] == b[i]) && (k == |a| || a[k] < b[k])
  }

  /** The order of texts is decided where they first differ. */
  lemma LessAtFirstDifference(a: string, b: string)
    ensures Less(a, b) <==> exists k: nat :: SmallerAt(a, b, k)
  {
    if Less(a, b) { var k := FirstDifference(a, b); }
    if k: nat :| SmallerAt(a, b, k) { SmallerIsLess(a, b, k); }
  }

  lemma {:induction false} FirstDifference(a: string, b: string) returns (k: nat)
    requires Less(a, b)
    ensures SmallerAt(a, b, k)
  {
    if a == "" || a[0] < b[0] {
      k := 0;
    } else {
      k := FirstDifference(a[1..], b[1..]);
      assert forall i :: 0 < i < k + 1 ==> a[i] == a[1..][i - 1] && b[i] == b[1..][i - 1];
      k := k + 1;
    }
  }

  lemma {:induction false} SmallerIsLess(a: string, b: string, k: nat)
    requires SmallerAt(a, b, k)
    ensures Less(a, b)
  {
    if k == 0 {
    } else {
      SmallerIsLess(a[1..], b[1..], k - 1);
    }
  }

  /** Strictly increasing keys. */
  ghost predicate Ascending<T(!new)>(xs: seq<T>, key: T -> string) {
    forall i, j :: 0 <= i < j < |xs| ==> Less(key(xs[i]), key(xs[j]))
  }

  ghost predicate DistinctKeys<T(!new)>(xs: seq<T>, key: T -> string) {
    forall i, j :: 0 <= i < j < |xs| ==> key(xs[i]) != key(xs[j])
  }

  /** `x` put before the first element whose key is not smaller. */
  function Insert<T>(x: T, xs: seq<T>, key: T -> string): seq<T> {
    if xs == [] || !Less(key(xs[0]), key(x)) then [x] + xs
    else [xs[0]] + Insert(x, xs[1..], key)
  }

  function Sort<T>(xs: seq<T>, key: T -> string): seq<T> {
    if xs == [] then [] else Insert(xs[0], Sort(xs[1..], key), key)
  }

  lemma {:induction false} InsertElements<T>(x: T, xs: seq<T>, key: T -> string)
    ensures multiset(Insert(x, xs, key)) == multiset([x]) + multiset(xs)
  {
    if xs == [] || !Less(key(xs[0]), key(x)) {
    } else {
      InsertElements(x, xs[1..], key);
      assert xs == [xs[0]] + xs[1..];
    }
  }

  lemma {:induction false} InsertAscending<T(!new)>(x: T, xs: seq<T>, key: T -> string)
    requires Ascending(xs, key)
    requires forall y :: y in xs ==> key(y) != key(x)
    ensures Ascending(Insert(x, xs, key), key)
  {
    var ys := Insert(x, xs, key);
    if xs == [] {
    } else if !Less(key(xs[0]), key(x)) {
      forall i, j | 0 <= i < j < |ys| ensures Less(key(ys[i]), key(ys[j])) {
        if i == 0 {
          LessTotal(key(x), key(xs[0]));
          if j > 1 { LessTransitive(key(x), key(xs[0]), key(xs[j - 1])); }
        }
      }
    } else {
      InsertAscending(x, xs[1..], key);
      InsertElements(x, xs[1..], key);
      forall i, j | 0 <= i < j < |ys| ensures Less(key(ys[i]), key(ys[j])) {
        if i == 0 {
          assert ys[j] == Insert(x, xs[1..], key)[j - 1];
          assert ys[j] in multiset(Insert(x, xs[1..], key));
          assert ys[j] in multiset([x]) || ys[j] in multiset(xs[1..]);
          if ys[j] != x {
            var k :| 0 <= k < |xs[1..]| && xs[1..][k] == ys[j];
            assert xs[k + 1] == ys[j];
          }
        }
      }
    }
  }

  /** Sorting keeps the elements, and puts them in strictly increasing order when no key repeats. */
  lemma {:induction false} SortSorts<T(!new)>(xs: seq<T>, key: T -> string)
    ensures multiset(Sort(xs, key)) == multiset(xs)
    ensures DistinctKeys(xs, key) ==> Ascending(Sort(xs, key), key)
  {
    if xs == [] {
    } else {
      SortSorts(xs[1..], key);
      InsertElements(xs[0], Sort(xs[1..], key), key);
      assert xs == [xs[0]] + xs[1..];
      if DistinctKeys(xs, key) {
        forall y | y in Sort(xs[1..], key) ensures key(y) != key(xs[0]) {
          assert y in multiset(xs[1..]);
        }
        InsertAscending(xs[0], Sort(xs[1..], key), key);
      }
    }
  }

  lemma SameElements<T>(xs: seq<T>, ys: seq<T>)
    requires multiset(xs) == multiset(ys)
    ensures forall x :: x in xs <==> x in ys
    ensures |xs| == |ys|
  {
    forall x ensures x in xs <==> x in ys {
      assert x in xs <==> x in multiset(xs);
      assert x in ys <==> x in multiset(ys);
    }
    assert |xs| == |multiset(xs)| && |ys| == |multiset(ys)|;
  }

  /** A strictly increasing sequence is determined by its set of elements. */
  lemma {:induction false} AscendingUnique<T(!new)>(xs: seq<T>, ys: seq<T>, key: T -> string)
    requires Ascending(xs, key) && Ascending(ys, key)
    requires forall x :: x in xs <==> x in ys
    ensures xs == ys
  {
    assert ys != [] ==> ys[0] in ys;
    if xs == [] {
    } else {
      assert xs[0] in ys;
      assert ys[0] in xs;
      var i :| 0 <= i < |ys| && ys[i] == xs[0];
      var j :| 0 <= j < |xs| && xs[j] == ys[0];
      if i > 0 && j > 0 {
        LessTransitive(key(xs[0]), key(xs[j]), key(ys[i]));
        LessIrreflexive(key(xs[0]));
        assert false;
      }
      assert xs[0] == ys[0];
      HeadNotInTail(xs, key);
      HeadNotInTail(ys, key);
      forall x ensures x in xs[1..] <==> x in ys[1..] {
        assert x in xs <==> x == xs[0] || x in xs[1..];
        assert x in ys <==> x == ys[0] || x in ys[1..];
      }
      AscendingUnique(xs[1..], ys[1..], key);
      assert xs == [xs[0]] + xs[1..] && ys == [ys[0]] + ys[1..];
    }
  }

  lemma HeadNotInTail<T(!new)>(xs: seq<T>, key: T -> string)
    requires xs != [] && Ascending(xs, key)
    ensures xs[0] !in xs[1..]
  {
    LessIrreflexive(key(xs[0]));
    forall k | 0 <= k < |xs[1..]| ensures xs[1..][k] != xs[0] {
      assert Less(key(xs[0]), key(xs[k + 1]));
    }
  }

  /** The elements of `xs` without repetitions, in the order of first occurrence: `[...new Set(xs)]`. */
  function Dedup<T(==)>(xs: seq<T>): seq<T> {
    if xs == [] then []
    else
      var front := Dedup(xs[..|xs| - 1]);
      if xs[|xs| - 1] in front then front else front + [xs[|xs| - 1]]
  }

  ghost predicate Distinct<T>(xs: seq<T>) {
    forall i, j :: 0 <= i < j < |xs| ==> xs[i] != xs[j]
  }

  lemma {:induction false} DedupIsDistinct<T>(xs: seq<T>)
    ensures Distinct(Dedup(xs))
    ensures forall x :: x in Dedup(xs) <==> x in xs
  {
    if xs == [] {
    } else {
      DedupIsDistinct(xs[..|xs| - 1]);
      assert xs == xs[..|xs| - 1] + [xs[|xs| - 1]];
    }
  }
}
