/** Stable sorting by a total preorder, and the order of strings by code point. */
module Sorting {

  ghost predicate TotalPreorder<T(!new)>(le: (T, T) -> bool) {
    && (forall x, y :: le(x, y) || le(y, x))
    && (forall x, y, z :: le(x, y) && le(y, z) ==> le(x, z))
  }

  /** Elements of `s` that are ordered both ways are equal. */
  ghost predicate AntisymmetricOn<T>(le: (T, T) -> bool, s: seq<T>) {
    forall x, y | x in s && y in s && le(x, y) && le(y, x) :: x == y
  }

  ghost predicate Sorted<T>(s: seq<T>, le: (T, T) -> bool) {
    forall i, j | 0 <= i < j < |s| :: le(s[i], s[j])
  }

  function Insert<T>(x: T, s: seq<T>, le: (T, T) -> bool): seq<T> {
    if s == [] || le(x, s[0]) then [x] + s else [s[0]] + Insert(x, s[1..], le)
  }

  function Sort<T>(s: seq<T>, le: (T, T) -> bool): seq<T> {
    if s == [] then [] else Insert(s[0], Sort(s[1..], le), le)
  }

  lemma {:induction false} InsertElements<T(!new)>(x: T, s: seq<T>, le: (T, T) -> bool)
    ensures multiset(Insert(x, s, le)) == multiset(s) + multiset{x}
  {
    if s != [] && !le(x, s[0]) {
      InsertElements(x, s[1..], le);
      assert s == [s[0]] + s[1..];
    }
  }

  /** Nothing in a sorted sequence, nor a new element not below its first, comes before its first. */
  lemma FirstBelow<T(!new)>(x: T, s: seq<T>, y: T, le: (T, T) -> bool)
    requires TotalPreorder(le) && Sorted(s, le) && s != [] && !le(x, s[0])
    requires y in Insert(x, s[1..], le)
    ensures le(s[0], y)
  {
    InsertElements(x, s[1..], le);
    assert y in multiset(Insert(x, s[1..], le));
    if y != x {
      assert y in multiset(s[1..]) && y in s[1..];
      var k :| 0 <= k < |s[1..]| && s[1..][k] == y;
      assert s[k + 1] == y;
    }
  }

  lemma {:induction false} InsertProperties<T(!new)>(x: T, s: seq<T>, le: (T, T) -> bool)
    requires TotalPreorder(le) && Sorted(s, le)
    ensures Sorted(Insert(x, s, le), le)
    ensures multiset(Insert(x, s, le)) == multiset(s) + multiset{x}
  {
    InsertElements(x, s, le);
    if s == [] {
    } else if le(x, s[0]) {
      forall j | 0 <= j < |s| ensures le(x, s[j]) {
        assert le(s[0], s[j]) || j == 0;
      }
    } else {
      var t := Insert(x, s[1..], le);
      InsertProperties(x, s[1..], le);
      forall j | 0 <= j < |t| ensures le(s[0], t[j]) { FirstBelow(x, s, t[j], le); }
    }
  }

  lemma {:induction false} SortProperties<T(!new)>(s: seq<T>, le: (T, T) -> bool)
    requires TotalPreorder(le)
    ensures Sorted(Sort(s, le), le) && multiset(Sort(s, le)) == multiset(s)
  {
    if s != [] {
      SortProperties(s[1..], le);
      InsertProperties(s[0], Sort(s[1..], le), le);
      assert s == [s[0]] + s[1..];
    }
  }

  lemma FirstIsLeast<T(!new)>(a: seq<T>, b: seq<T>, le: (T, T) -> bool)
    requires TotalPreorder(le) && Sorted(a, le) && multiset(a) == multiset(b) && a != []
    ensures b != [] && le(a[0], b[0])
  {
    assert a[0] in multiset(b);
    assert b[0] in multiset(a);
    var i :| 0 <= i < |a| && a[i] == b[0];
    assert le(a[0], a[0]);
  }

  lemma SortedTail<T(!new)>(a: seq<T>, le: (T, T) -> bool)
    requires Sorted(a, le) && a != []
    ensures Sorted(a[1..], le) && multiset(a) == multiset{a[0]} + multiset(a[1..])
    ensures a == [a[0]] + a[1..] && forall x | x in a[1..] :: x in a
  {
    assert a == [a[0]] + a[1..];
  }

  lemma {:induction false} SortedUnique<T(!new)>(a: seq<T>, b: seq<T>, le: (T, T) -> bool)
    requires TotalPreorder(le) && Sorted(a, le) && Sorted(b, le)
    requires multiset(a) == multiset(b) && AntisymmetricOn(le, a)
    ensures a == b
  {
    if a == [] {
      assert |multiset(b)| == 0;
    } else {
      FirstIsLeast(a, b, le);
      FirstIsLeast(b, a, le);
      assert a[0] in a && b[0] in multiset(a) && b[0] in a;
      SortedTail(a, le);
      SortedTail(b, le);
      assert multiset(a[1..]) == multiset(a) - multiset{a[0]} == multiset(b[1..]);
      SortedUnique(a[1..], b[1..], le);
    }
  }

  /** Sorting forgets the order it started from, when ties are equal elements. */
  lemma SortForgetsOrder<T(!new)>(a: seq<T>, b: seq<T>, le: (T, T) -> bool)
    requires TotalPreorder(le) && multiset(a) == multiset(b) && AntisymmetricOn(le, a)
    ensures Sort(a, le) == Sort(b, le)
  {
    SortProperties(a, le);
    SortProperties(b, le);
    forall x | x in Sort(a, le) ensures x in a {
      assert x in multiset(Sort(a, le)) && x in multiset(a);
    }
    SortedUnique(Sort(a, le), Sort(b, le), le);
  }

  function Map<T, U>(s: seq<T>, f: T -> U): seq<U> {
    if s == [] then [] else [f(s[0])] + Map(s[1..], f)
  }

  lemma {:induction false} InsertMap<T(!new), U>(x: T, s: seq<T>, f: T -> U, le: (T, T) -> bool, le': (U, U) -> bool)
    requires forall a, b :: le(a, b) == le'(f(a), f(b))
    ensures Map(Insert(x, s, le), f) == Insert(f(x), Map(s, f), le')
  {
    if s != [] {
      assert Map(s, f)[1..] == Map(s[1..], f);
      if le(x, s[0]) {
        assert ([x] + s)[1..] == s;
      } else {
        InsertMap(x, s[1..], f, le, le');
        assert ([s[0]] + Insert(x, s[1..], le))[1..] == Insert(x, s[1..], le);
      }
    }
  }

  /** Sorting by a key that each element carries is sorting by the key function. */
  lemma {:induction false} SortMap<T(!new), U>(s: seq<T>, f: T -> U, le: (T, T) -> bool, le': (U, U) -> bool)
    requires forall a, b :: le(a, b) == le'(f(a), f(b))
    ensures Map(Sort(s, le), f) == Sort(Map(s, f), le')
  {
    if s != [] {
      assert Map(s, f)[1..] == Map(s[1..], f);
      SortMap(s[1..], f, le, le');
      InsertMap(s[0], Sort(s[1..], le), f, le, le');
    }
  }

  lemma {:induction false} MapAt<T, U>(s: seq<T>, f: T -> U)
    ensures |Map(s, f)| == |s| && forall i | 0 <= i < |s| :: Map(s, f)[i] == f(s[i])
  {
    if s != [] { MapAt(s[1..], f); }
  }

  function LexLe(a: string, b: string): bool {
    a == "" || (b != "" && (a[0] < b[0] || (a[0] == b[0] && LexLe(a[1..], b[1..]))))
  }

  lemma {:induction false} LexTotal(a: string, b: string)
    ensures LexLe(a, b) || LexLe(b, a)
    ensures LexLe(a, b) && LexLe(b, a) ==> a == b
  {
    if a != "" && b != "" && a[0] == b[0] {
      LexTotal(a[1..], b[1..]);
      assert a == [a[0]] + a[1..] && b == [b[0]] + b[1..];
    }
  }

  lemma {:induction false} LexTransitive(a: string, b: string, c: string)
    requires LexLe(a, b) && LexLe(b, c)
    ensures LexLe(a, c)
  {
    if a != "" && a[0] == b[0] == c[0] { LexTransitive(a[1..], b[1..], c[1..]); }
  }

  // ---------------------------------------------------------------- sorting by neighbour swaps

  function Swap<T>(s: seq<T>, i: nat): seq<T>
    requires i + 1 < |s|
  {
    s[i := s[i + 1]][i + 1 := s[i]]
  }

  lemma SwapBack<T>(s: seq<T>, i: nat)
    requires i + 1 < |s|
    ensures Swap(Swap(s, i), i) == s && multiset(Swap(s, i)) == multiset(s)
  {
  }

  /** `n` swaps of neighbours lead from `a` to `b`. */
  ghost predicate SwapsIn<T(!new)>(a: seq<T>, b: seq<T>, n: nat)
    decreases n
  {
    if n == 0 then a == b else exists i :: 0 <= i < |a| - 1 && SwapsIn(Swap(a, i), b, n - 1)
  }

  lemma FirstSwap<T(!new)>(a: seq<T>, b: seq<T>, n: nat) returns (i: nat)
    requires n > 0 && SwapsIn(a, b, n)
    ensures i + 1 < |a| && SwapsIn(Swap(a, i), b, n - 1)
  {
    i :| 0 <= i < |a| - 1 && SwapsIn(Swap(a, i), b, n - 1);
  }

  lemma {:induction false} SwapsInTrans<T(!new)>(a: seq<T>, b: seq<T>, c: seq<T>, n: nat, m: nat)
    requires SwapsIn(a, b, n) && SwapsIn(b, c, m)
    ensures SwapsIn(a, c, n + m)
    decreases n
  {
    if n > 0 {
      var i :| 0 <= i < |a| - 1 && SwapsIn(Swap(a, i), b, n - 1);
      SwapsInTrans(Swap(a, i), b, c, n - 1, m);
    }
  }

  lemma {:induction false} SwapsInTail<T(!new)>(x: T, a: seq<T>, b: seq<T>, n: nat)
    requires SwapsIn(a, b, n)
    ensures SwapsIn([x] + a, [x] + b, n)
    decreases n
  {
    if n > 0 {
      var i :| 0 <= i < |a| - 1 && SwapsIn(Swap(a, i), b, n - 1);
      SwapsInTail(x, Swap(a, i), b, n - 1);
      assert Swap([x] + a, i + 1) == [x] + Swap(a, i);
    }
  }

  lemma {:induction false} InsertSwaps<T(!new)>(x: T, s: seq<T>, le: (T, T) -> bool) returns (n: nat)
    ensures SwapsIn([x] + s, Insert(x, s, le), n)
  {
    if s == [] || le(x, s[0]) {
      n := 0;
    } else {
      n := InsertSwaps(x, s[1..], le);
      SwapsInTail(s[0], [x] + s[1..], Insert(x, s[1..], le), n);
      assert Swap([x] + s, 0) == [s[0]] + ([x] + s[1..]);
      n := n + 1;
    }
  }

  /** Sorting can be done by swapping neighbours. */
  lemma {:induction false} SortSwaps<T(!new)>(s: seq<T>, le: (T, T) -> bool) returns (n: nat)
    ensures SwapsIn(s, Sort(s, le), n)
  {
    if s == [] {
      n := 0;
    } else {
      n := SortSwaps(s[1..], le);
      SwapsInTail(s[0], s[1..], Sort(s[1..], le), n);
      assert s == [s[0]] + s[1..];
      var m := InsertSwaps(s[0], Sort(s[1..], le), le);
      SwapsInTrans(s, [s[0]] + Sort(s[1..], le), Sort(s, le), n, m);
      n := n + m;
    }
  }
}
