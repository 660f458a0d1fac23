/** A stable sort by an integer key, standing for sort.SliceStable, and the facts
    about it that admission and reclamation rest on. */
module Ordering {

  /** s with y put after every element whose key is not larger. */
  function Insert<T>(s: seq<T>, y: T, key: T -> int): (r: seq<T>)
    ensures multiset(r) == multiset(s) + multiset{y}
    ensures |r| == |s| + 1
  {
    if s == [] then [y]
    else if key(y) < key(s[0]) then
      [y] + s
    else
      assert s == [s[0]] + s[1..];
      [s[0]] + Insert(s[1..], y, key)
  }

  /** s sorted by key, elements with equal keys in their original order. */
  function SortBy<T>(s: seq<T>, key: T -> int): (r: seq<T>)
    ensures multiset(r) == multiset(s)
    ensures |r| == |s|
  {
    if s == [] then []
    else
      assert s == s[..|s| - 1] + [s[|s| - 1]];
      Insert(SortBy(s[..|s| - 1], key), s[|s| - 1], key)
  }

  lemma SortBySnoc<T>(s: seq<T>, y: T, key: T -> int)
    ensures SortBy(s + [y], key) == Insert(SortBy(s, key), y, key)
  {
    assert (s + [y])[..|s|] == s;
  }

  ghost predicate Sorted<T>(s: seq<T>, key: T -> int) {
    forall i, j :: 0 <= i < j < |s| ==> key(s[i]) <= key(s[j])
  }

  ghost predicate Distinct<T(!new)>(s: seq<T>) {
    forall i, j :: 0 <= i < j < |s| ==> s[i] != s[j]
  }

  lemma {:induction false} InsertKeepsSorted<T>(s: seq<T>, y: T, key: T -> int)
    requires Sorted(s, key)
    ensures Sorted(Insert(s, y, key), key)
  {
    if s != [] && key(y) >= key(s[0]) {
      InsertKeepsSorted(s[1..], y, key);
      var rest := Insert(s[1..], y, key);
      forall j | 0 <= j < |rest|
        ensures key(s[0]) <= key(rest[j])
      {
        assert rest[j] in multiset(rest);
        assert rest[j] in multiset(s[1..]) || rest[j] == y;
        if rest[j] in multiset(s[1..]) {
          assert rest[j] in s[1..];
        }
      }
    }
  }

  lemma {:induction false} SortByIsSorted<T>(s: seq<T>, key: T -> int)
    ensures Sorted(SortBy(s, key), key)
  {
    if s != [] {
      SortByIsSorted(s[..|s| - 1], key);
      InsertKeepsSorted(SortBy(s[..|s| - 1], key), s[|s| - 1], key);
    }
  }

  lemma SortByKeepsElements<T>(s: seq<T>, key: T -> int, x: T)
    ensures x in SortBy(s, key) <==> x in s
  {
    assert x in SortBy(s, key) <==> x in multiset(SortBy(s, key));
    assert x in s <==> x in multiset(s);
  }

  lemma DistinctIffCounts<T(!new)>(s: seq<T>)
    ensures Distinct(s) <==> forall x :: multiset(s)[x] <= 1
  {
    if Distinct(s) {
      forall x ensures multiset(s)[x] <= 1 { CountsOfDistinct(s, x); }
    } else {
      var i, j :| 0 <= i < j < |s| && s[i] == s[j];
      assert s == s[..j] + [s[j]] + s[j + 1..];
      assert s[i] in s[..j];
      assert multiset(s)[s[i]] == multiset(s[..j])[s[i]] + 1 + multiset(s[j + 1..])[s[i]];
    }
  }

  lemma {:induction false} CountsOfDistinct<T(!new)>(s: seq<T>, x: T)
    requires Distinct(s)
    ensures multiset(s)[x] <= 1
  {
    if s != [] {
      assert s == [s[0]] + s[1..];
      CountsOfDistinct(s[1..], x);
      if s[0] == x {
        assert x !in s[1..];
      }
    }
  }

  lemma SortByKeepsDistinct<T(!new)>(s: seq<T>, key: T -> int)
    requires Distinct(s)
    ensures Distinct(SortBy(s, key))
  {
    DistinctIffCounts(s);
    DistinctIffCounts(SortBy(s, key));
  }

  /** The elements of s whose key is k, in order. */
  ghost function WithKey<T>(s: seq<T>, key: T -> int, k: int): seq<T> {
    if s == [] then []
    else if key(s[0]) == k then [s[0]] + WithKey(s[1..], key, k)
    else WithKey(s[1..], key, k)
  }

  lemma WithKeyCons<T>(h: T, s: seq<T>, key: T -> int, k: int)
    ensures WithKey([h] + s, key, k) == if key(h) == k then [h] + WithKey(s, key, k) else WithKey(s, key, k)
  {
    assert ([h] + s)[1..] == s;
  }

  lemma {:induction false} WithKeySnoc<T>(s: seq<T>, y: T, key: T -> int, k: int)
    ensures WithKey(s + [y], key, k) == if key(y) == k then WithKey(s, key, k) + [y] else WithKey(s, key, k)
  {
    if s == [] {
      assert s + [y] == [y] + [];
      WithKeyCons(y, [], key, k);
    } else {
      WithKeySnoc(s[1..], y, key, k);
      assert s + [y] == [s[0]] + (s[1..] + [y]);
      WithKeyCons(s[0], s[1..] + [y], key, k);
    }
  }

  lemma {:induction false} InsertIsStable<T>(s: seq<T>, y: T, key: T -> int, k: int)
    requires Sorted(s, key)
    ensures WithKey(Insert(s, y, key), key, k) == if key(y) == k then WithKey(s, key, k) + [y] else WithKey(s, key, k)
  {
    if s == [] {
      WithKeyCons(y, [], key, k);
    } else if key(y) < key(s[0]) {
      WithKeyCons(y, s, key, k);
      if key(y) == k {
        NoneWithKey(s, key, k);
      }
    } else {
      InsertIsStable(s[1..], y, key, k);
      WithKeyCons(s[0], Insert(s[1..], y, key), key, k);
    }
  }

  lemma {:induction false} NoneWithKey<T>(s: seq<T>, key: T -> int, k: int)
    requires forall i :: 0 <= i < |s| ==> key(s[i]) != k
    ensures WithKey(s, key, k) == []
  {
    if s != [] {
      NoneWithKey(s[1..], key, k);
    }
  }

  /** Elements with equal keys keep their relative order. */
  lemma {:induction false} SortByIsStable<T>(s: seq<T>, key: T -> int, k: int)
    ensures WithKey(SortBy(s, key), key, k) == WithKey(s, key, k)
  {
    if s != [] {
      var front, last := s[..|s| - 1], s[|s| - 1];
      assert s == front + [last];
      SortByIsStable(front, key, k);
      SortByIsSorted(front, key);
      SortBySnoc(front, last, key);
      InsertIsStable(SortBy(front, key), last, key, k);
      WithKeySnoc(front, last, key, k);
    }
  }

  /** s with every occurrence of x removed. */
  function Without<T(==)>(s: seq<T>, x: T): seq<T> {
    if s == [] then []
    else if s[0] == x then Without(s[1..], x)
    else [s[0]] + Without(s[1..], x)
  }

  lemma {:induction false} WithoutElements<T>(s: seq<T>, x: T, y: T)
    ensures y in Without(s, x) <==> y in s && y != x
  {
    if s != [] {
      WithoutElements(s[1..], x, y);
      assert y in s <==> y == s[0] || y in s[1..];
    }
  }

  lemma WithoutCons<T>(h: T, s: seq<T>, x: T)
    ensures Without([h] + s, x) == if h == x then Without(s, x) else [h] + Without(s, x)
  {
    assert ([h] + s)[1..] == s;
  }

  lemma {:induction false} WithoutConcat<T>(a: seq<T>, b: seq<T>, x: T)
    ensures Without(a + b, x) == Without(a, x) + Without(b, x)
  {
    if a == [] {
      assert a + b == b;
    } else {
      assert a + b == [a[0]] + (a[1..] + b);
      WithoutCons(a[0], a[1..] + b, x);
      WithoutConcat(a[1..], b, x);
    }
  }

  lemma {:induction false} WithoutAbsent<T>(s: seq<T>, x: T)
    requires x !in s
    ensures Without(s, x) == s
  {
    if s != [] {
      WithoutAbsent(s[1..], x);
    }
  }

  lemma InsertFront<T>(s: seq<T>, y: T, key: T -> int)
    requires forall i :: 0 <= i < |s| ==> key(y) < key(s[i])
    ensures Insert(s, y, key) == [y] + s
  {
  }

  lemma InsertSkips<T>(x: T, s: seq<T>, y: T, key: T -> int)
    requires key(x) <= key(y)
    ensures Insert([x] + s, y, key) == [x] + Insert(s, y, key)
  {
    assert ([x] + s)[1..] == s;
  }

  lemma {:induction false} InsertWithout<T>(s: seq<T>, y: T, key: T -> int, x: T)
    requires Sorted(s, key)
    ensures Without(Insert(s, y, key), x)
         == if x == y then Without(s, x) else Insert(Without(s, x), y, key)
  {
    if s == [] {
      WithoutCons(y, [], x);
    } else if key(y) < key(s[0]) {
      WithoutCons(y, s, x);
      var w := Without(s, x);
      forall i | 0 <= i < |w| ensures key(y) < key(w[i]) {
        WithoutElements(s, x, w[i]);
      }
      InsertFront(w, y, key);
    } else {
      var rest := s[1..];
      InsertWithout(rest, y, key, x);
      WithoutCons(s[0], Insert(rest, y, key), x);
      InsertSkips(s[0], Without(rest, x), y, key);
    }
  }

  /** Taking an element out before or after sorting gives the same order. */
  lemma {:induction false} SortByWithout<T>(s: seq<T>, key: T -> int, x: T)
    ensures Without(SortBy(s, key), x) == SortBy(Without(s, x), key)
  {
    if s != [] {
      var front, last := s[..|s| - 1], s[|s| - 1];
      assert s == front + [last];
      SortByWithout(front, key, x);
      SortByIsSorted(front, key);
      SortBySnoc(front, last, key);
      InsertWithout(SortBy(front, key), last, key, x);
      WithoutSnoc(front, last, x);
      if last != x {
        SortBySnoc(Without(front, x), last, key);
      }
    }
  }

  lemma WithoutSnoc<T>(s: seq<T>, y: T, x: T)
    ensures Without(s + [y], x) == if y == x then Without(s, x) else Without(s, x) + [y]
  {
    WithoutConcat(s, [y], x);
    WithoutCons(y, [], x);
  }

  /** Removing the element at position j shortens the sequence by exactly that element. */
  lemma {:induction false} WithoutAt<T(!new)>(s: seq<T>, j: nat)
    requires Distinct(s) && j < |s|
    ensures Without(s, s[j]) == s[..j] + s[j + 1..]
  {
    var rest := s[1..];
    if j == 0 {
      assert s[0] !in rest;
      WithoutAbsent(rest, s[0]);
      assert s[..0] + s[1..] == rest;
    } else {
      assert rest[j - 1] == s[j];
      WithoutAt(rest, j - 1);
      assert s[..j] + s[j + 1..] == [s[0]] + (rest[..j - 1] + rest[j..]);
    }
  }

  lemma SortByOne<T>(x: T, key: T -> int)
    ensures SortBy([x], key) == [x]
  {
    assert [x] == [] + [x];
    SortBySnoc([], x, key);
  }

  lemma SortByTwo<T>(x: T, y: T, key: T -> int)
    requires key(x) <= key(y)
    ensures SortBy([x, y], key) == [x, y]
  {
    assert [x, y] == [x] + [y] && [x] == [x] + [];
    SortBySnoc([x], y, key);
    SortByOne(x, key);
    hide SortBy;
    InsertSkips(x, [], y, key);
  }

  /** x comes somewhere before y. */
  ghost predicate Precedes<T(!new)>(s: seq<T>, x: T, y: T) {
    exists i, j :: 0 <= i < j < |s| && s[i] == x && s[j] == y
  }

  lemma PrecedesSnoc<T(!new)>(s: seq<T>, x: T, y: T, last: T)
    ensures Precedes(s, x, y) ==> Precedes(s + [last], x, y)
    ensures x in s ==> Precedes(s + [last], x, last)
  {
    if Precedes(s, x, y) {
      var i, j :| 0 <= i < j < |s| && s[i] == x && s[j] == y;
      assert (s + [last])[i] == x && (s + [last])[j] == y;
    }
    if x in s {
      var i :| 0 <= i < |s| && s[i] == x;
      assert (s + [last])[i] == x && (s + [last])[|s|] == last;
    }
  }

  lemma PrecedesCons<T(!new)>(first: T, s: seq<T>, x: T, y: T)
    ensures Precedes([first] + s, x, y) <==> Precedes(s, x, y) || (x == first && y in s)
  {
    var t := [first] + s;
    if Precedes(s, x, y) {
      var i, j :| 0 <= i < j < |s| && s[i] == x && s[j] == y;
      assert t[i + 1] == x && t[j + 1] == y;
    }
    if x == first && y in s {
      var j :| 0 <= j < |s| && s[j] == y;
      assert t[0] == x && t[j + 1] == y;
    }
    if Precedes(t, x, y) {
      var i, j :| 0 <= i < j < |t| && t[i] == x && t[j] == y;
      assert s[j - 1] == y;
      assert i > 0 ==> s[i - 1] == x;
    }
  }

  /** An insertion goes behind everything it does not come before, and turns no two round. */
  lemma {:induction false} InsertKeepsOrder<T(!new)>(s: seq<T>, y: T, key: T -> int, x: T, z: T)
    ensures Precedes(s, x, z) ==> Precedes(Insert(s, y, key), x, z)
    ensures x in s && key(x) <= key(y) && Sorted(s, key) ==> Precedes(Insert(s, y, key), x, y)
  {
    if s != [] {
      var rest := s[1..];
      assert s == [s[0]] + rest;
      PrecedesCons(s[0], rest, x, z);
      if key(y) < key(s[0]) {
        PrecedesCons(y, s, x, z);
      } else {
        InsertKeepsOrder(rest, y, key, x, z);
        PrecedesCons(s[0], Insert(rest, y, key), x, z);
        PrecedesCons(s[0], Insert(rest, y, key), x, y);
        InsertedThere(rest, y, key, y);
        InsertedThere(rest, y, key, z);
      }
    }
  }

  lemma InsertedThere<T>(s: seq<T>, y: T, key: T -> int, x: T)
    ensures x in Insert(s, y, key) <==> x in s || x == y
  {
    assert x in Insert(s, y, key) <==> x in multiset(Insert(s, y, key));
    assert x in s <==> x in multiset(s);
  }

  lemma SortedPrecedes<T(!new)>(sorted: seq<T>, key: T -> int, x: T, y: T)
    requires Sorted(sorted, key) && x in sorted && y in sorted && key(x) < key(y)
    ensures Precedes(sorted, x, y)
  {
    var i :| 0 <= i < |sorted| && sorted[i] == x;
    var j :| 0 <= j < |sorted| && sorted[j] == y;
    assert i < j;
  }

  /** Whoever has the smaller key, or an equal one and stands first, stands first after
      sorting. */
  lemma SortByOrders<T(!new)>(s: seq<T>, key: T -> int, x: T, y: T)
    requires x in s && y in s
    requires key(x) < key(y) || (key(x) == key(y) && Precedes(s, x, y))
    ensures Precedes(SortBy(s, key), x, y)
  {
    if key(x) < key(y) {
      SortByIsSorted(s, key);
      SortByKeepsElements(s, key, x);
      SortByKeepsElements(s, key, y);
      hide SortBy;
      SortedPrecedes(SortBy(s, key), key, x, y);
    } else {
      SortByKeepsOrder(s, key, x, y);
    }
  }

  lemma {:induction false} SortByKeepsOrder<T(!new)>(s: seq<T>, key: T -> int, x: T, y: T)
    requires key(x) <= key(y) && Precedes(s, x, y)
    ensures Precedes(SortBy(s, key), x, y)
  {
    var front, last := s[..|s| - 1], s[|s| - 1];
    assert s == front + [last];
    var i, j :| 0 <= i < j < |s| && s[i] == x && s[j] == y;
    SortBySnoc(front, last, key);
    if j < |front| {
      assert front[i] == x && front[j] == y;
      SortByKeepsOrder(front, key, x, y);
    } else {
      assert front[i] == x;
      SortByIsSorted(front, key);
      SortByKeepsElements(front, key, x);
    }
    InsertKeepsOrder(SortBy(front, key), last, key, x, y);
  }

  /** What comes before the first separator. */
  function Before<T(==)>(s: seq<T>, separator: T): seq<T> {
    if s == [] || s[0] == separator then [] else [s[0]] + Before(s[1..], separator)
  }

  lemma {:induction false} BeforeSeparator<T>(part: seq<T>, separator: T, rest: seq<T>)
    requires separator !in part
    ensures Before(part + [separator] + rest, separator) == part
  {
    if part != [] {
      BeforeSeparator(part[1..], separator, rest);
      assert (part + [separator] + rest)[1..] == part[1..] + [separator] + rest;
    }
  }

  lemma {:induction false} SubsetSize<T>(a: set<T>, b: set<T>)
    requires a <= b
    ensures |a| <= |b|
  {
    if a != {} {
      var x :| x in a;
      SubsetSize(a - {x}, b - {x});
    }
  }
}
