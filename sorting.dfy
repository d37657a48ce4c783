/**
 * Stable sorting, as Array.prototype.sort has been required to be since
 * ECMAScript 2019. Given a total preorder, the output of a stable sort is
 * unique, so a stable insertion sort describes exactly what the engine returns.
 * Also the "first n by recency" property that both comment feeds promise.
 */
module Sorting {
  import opened Common

  /** `le(a, b)`: `a` may come before `b`. */
  ghost predicate TotalPreorder<T(!new)>(le: (T, T) -> bool) {
    && (forall a, b :: le(a, b) || le(b, a))
    && (forall a, b, c :: le(a, b) && le(b, c) ==> le(a, c))
  }

  predicate SortedBy<T>(s: seq<T>, le: (T, T) -> bool) {
    forall i, j :: 0 <= i < j < |s| ==> le(s[i], s[j])
  }

  /** Places `x` before the first element it may precede. */
  function Insert<T>(x: T, s: seq<T>, le: (T, T) -> bool): (r: seq<T>)
    ensures |r| == |s| + 1
  {
    if s == [] then [x]
    else if le(x, s[0]) then [x] + s
    else [s[0]] + Insert(x, s[1..], le)
  }

  function Sort<T>(s: seq<T>, le: (T, T) -> bool): (r: seq<T>)
    ensures |r| == |s|
  {
    if s == [] then [] else Insert(s[0], Sort(s[1..], le), le)
  }

  /** The elements of `s` equivalent to `p` under `le`, in order. */
  function Equivalents<T>(s: seq<T>, le: (T, T) -> bool, p: T): seq<T> {
    Filter(s, x => le(x, p) && le(p, x))
  }

  lemma {:induction false} InsertPermutes<T>(x: T, s: seq<T>, le: (T, T) -> bool)
    ensures multiset(Insert(x, s, le)) == multiset(s) + multiset{x}
  {
    if s != [] && !le(x, s[0]) {
      InsertPermutes(x, s[1..], le);
      assert s == [s[0]] + s[1..];
    }
  }

  lemma {:induction false} InsertSorted<T(!new)>(x: T, s: seq<T>, le: (T, T) -> bool)
    requires TotalPreorder(le) && SortedBy(s, le)
    ensures SortedBy(Insert(x, s, le), le)
  {
    if s != [] && !le(x, s[0]) {
      InsertSorted(x, s[1..], le);
      InsertPermutes(x, s[1..], le);
      var t := Insert(x, s[1..], le);
      forall k | 0 <= k < |t| ensures le(s[0], t[k]) {
        assert t[k] in multiset(t);
        assert t[k] == x || t[k] in s[1..];
      }
    }
  }

  /** Sort returns an ordered permutation of its input. */
  lemma {:induction false} SortCorrect<T(!new)>(s: seq<T>, le: (T, T) -> bool)
    requires TotalPreorder(le)
    ensures SortedBy(Sort(s, le), le)
    ensures multiset(Sort(s, le)) == multiset(s)
    ensures |Sort(s, le)| == |s|
  {
    if s != [] {
      SortCorrect(s[1..], le);
      InsertSorted(s[0], Sort(s[1..], le), le);
      InsertPermutes(s[0], Sort(s[1..], le), le);
      assert s == [s[0]] + s[1..];
      assert |multiset(Sort(s, le))| == |multiset(s)|;
    }
  }

  lemma {:induction false} InsertStable<T(!new)>(x: T, s: seq<T>, le: (T, T) -> bool, p: T)
    requires TotalPreorder(le) && SortedBy(s, le)
    ensures Equivalents(Insert(x, s, le), le, p) ==
            (if le(x, p) && le(p, x) then [x] else []) + Equivalents(s, le, p)
  {
    var eq := y => le(y, p) && le(p, y);
    if s == [] {
    } else if le(x, s[0]) {
      assert ([x] + s)[1..] == s;
    } else {
      InsertStable(x, s[1..], le, p);
      assert ([s[0]] + Insert(x, s[1..], le))[1..] == Insert(x, s[1..], le);
      if eq(x) {
        assert !eq(s[0]);
      }
    }
  }

  /** Elements that compare equal keep their input order. */
  lemma {:induction false} SortStable<T(!new)>(s: seq<T>, le: (T, T) -> bool, p: T)
    requires TotalPreorder(le)
    ensures Equivalents(Sort(s, le), le, p) == Equivalents(s, le, p)
  {
    if s != [] {
      SortStable(s[1..], le, p);
      SortCorrect(s[1..], le);
      InsertStable(s[0], Sort(s[1..], le), le, p);
    }
  }

  /**
   * `r` is a valid answer to "the first n of `all` in `le` order": as long as
   * both allow, ordered, drawn from `all`, and nothing left out comes before
   * anything taken.
   */
  ghost predicate IsTopN<T>(all: seq<T>, r: seq<T>, n: nat, le: (T, T) -> bool) {
    && |r| == Min(n, |all|)
    && SortedBy(r, le)
    && multiset(r) <= multiset(all)
    && forall x, y :: x in multiset(all) - multiset(r) && y in r ==> le(y, x)
  }

  /** A prefix of a sorted sequence is sorted, and nothing after it comes before anything in it. */
  lemma SortedSplit<T>(t: seq<T>, k: nat, le: (T, T) -> bool)
    requires SortedBy(t, le) && k <= |t|
    ensures SortedBy(t[..k], le)
    ensures forall x, y :: x in t[k..] && y in t[..k] ==> le(y, x)
  {
    forall x, y | x in t[k..] && y in t[..k] ensures le(y, x) {
      var i :| 0 <= i < k && t[..k][i] == y;
      var j :| 0 <= j < |t| - k && t[k..][j] == x;
      assert t[i] == y && t[k + j] == x;
    }
  }

  lemma MultisetSplit<T>(t: seq<T>, k: nat)
    requires k <= |t|
    ensures multiset(t) - multiset(t[..k]) == multiset(t[k..])
    ensures multiset(t[..k]) <= multiset(t)
  {
    assert t == t[..k] + t[k..];
  }

  /** A prefix of the sorted sequence answers the top-n query. */
  lemma TopNOfSorted<T(!new)>(all: seq<T>, n: nat, le: (T, T) -> bool)
    requires TotalPreorder(le)
    ensures IsTopN(all, Sort(all, le)[..Min(n, |all|)], n, le)
  {
    SortCorrect(all, le);
    var t := Sort(all, le);
    var k := Min(n, |all|);
    SortedSplit(t, k, le);
    MultisetSplit(t, k);
  }

  /** Lexicographic order on strings by code point. */
  predicate LexLe(a: string, b: string) {
    a == [] || (b != [] && (a[0] < b[0] || (a[0] == b[0] && LexLe(a[1..], b[1..]))))
  }

  lemma {:induction false} LexTotal(a: string, b: string)
    ensures LexLe(a, b) || LexLe(b, a)
  {
    if a != [] && b != [] && a[0] == b[0] {
      LexTotal(a[1..], b[1..]);
    }
  }

  lemma {:induction false} LexTransitive(a: string, b: string, c: string)
    requires LexLe(a, b) && LexLe(b, c)
    ensures LexLe(a, c)
  {
    if a != [] && b != [] && c != [] && a[0] == b[0] == c[0] {
      LexTransitive(a[1..], b[1..], c[1..]);
    }
  }

  lemma {:induction false} LexAntisymmetric(a: string, b: string)
    requires LexLe(a, b) && LexLe(b, a)
    ensures a == b
  {
    if a != [] && b != [] {
      LexAntisymmetric(a[1..], b[1..]);
      assert a == [a[0]] + a[1..] && b == [b[0]] + b[1..];
    }
  }

  const StringOrder: (string, string) -> bool := (a: string, b: string) => LexLe(a, b)

  lemma StringOrderTotal()
    ensures TotalPreorder(StringOrder)
  {
    forall a, b ensures StringOrder(a, b) || StringOrder(b, a) {
      LexTotal(a, b);
    }
    forall a, b, c | StringOrder(a, b) && StringOrder(b, c) ensures StringOrder(a, c) {
      LexTransitive(a, b, c);
    }
  }
}
