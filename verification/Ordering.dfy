/**
 * Python's order on strings and on tuples of strings, its stable `sorted`, `lower` on ASCII, and hexadecimal digests.
 */
module Ordering {
  function Lower(s: string): string {
    seq(|s|, i requires 0 <= i < |s| => if 'A' <= s[i] <= 'Z' then (s[i] as int + 32) as char else s[i])
  }

  lemma LowerExactly(s: string)
    ensures |Lower(s)| == |s| && Lower(Lower(s)) == Lower(s)
    ensures forall i :: 0 <= i < |s| ==>
              if 'A' <= s[i] <= 'Z' then Lower(s)[i] - 'a' == s[i] - 'A' && 'a' <= Lower(s)[i] else Lower(s)[i] == s[i]
  {
  }

  /** Digits as `hexdigest` writes them. */
  predicate IsHexDigest(s: string) {
    forall i :: 0 <= i < |s| ==> '0' <= s[i] <= '9' || 'a' <= s[i] <= 'f'
  }

  predicate Less(a: string, b: string) {
    b != [] && (a == [] || a[0] < b[0] || (a[0] == b[0] && Less(a[1..], b[1..])))
  }

  /** The strings agree up to a place where the first one ends or has the smaller character. */
  ghost predicate PartAt(a: string, b: string, n: nat) {
    n <= |a| && n < |b| && (forall i :: 0 <= i < n ==> a[i] == b[i]) && (n == |a| || a[n] < b[n])
  }

  lemma PartLater(a: string, b: string, n: nat)
    requires a != [] && b != [] && a[0] == b[0]
    ensures PartAt(a, b, n + 1) <==> PartAt(a[1..], b[1..], n)
    ensures !PartAt(a, b, 0)
  {
    assert PartAt(a, b, n + 1) ==> forall i :: 0 <= i < n ==> a[1..][i] == a[i + 1] == b[i + 1] == b[1..][i];
    assert PartAt(a[1..], b[1..], n) ==> forall i :: 1 <= i < n + 1 ==> a[i] == a[1..][i - 1] == b[1..][i - 1] == b[i];
  }

  lemma {:induction false} LessExactly(a: string, b: string)
    ensures Less(a, b) <==> exists n: nat :: PartAt(a, b, n)
  {
    if a != [] && b != [] && a[0] == b[0] {
      LessExactly(a[1..], b[1..]);
      PartLater(a, b, 0);
      if n: nat :| PartAt(a[1..], b[1..], n) {
        PartLater(a, b, n);
      }
      if n: nat :| PartAt(a, b, n) {
        PartLater(a, b, n - 1);
      }
    } else {
      assert Less(a, b) <==> PartAt(a, b, 0);
    }
  }

  lemma {:induction false} LessIsTransitive(a: string, b: string, c: string)
    requires Less(a, b) && Less(b, c)
    ensures Less(a, c)
  {
    if a != [] && a[0] == b[0] && b[0] == c[0] {
      LessIsTransitive(a[1..], b[1..], c[1..]);
    }
  }

  lemma {:induction false} LessIsTotal(a: string, b: string)
    ensures Less(a, b) || Less(b, a) || a == b
    ensures !(Less(a, b) && Less(b, a))
    ensures !Less(a, a)
  {
    if a != [] {
      if b != [] {
        LessIsTotal(a[1..], b[1..]);
        if a[0] == b[0] && a[1..] == b[1..] {
          assert a == [a[0]] + a[1..] && b == [b[0]] + b[1..];
        }
      } else {
        LessIsTotal(a[1..], []);
      }
    }
  }

  predicate KeyLess(a: seq<string>, b: seq<string>) {
    b != [] && (a == [] || Less(a[0], b[0]) || (a[0] == b[0] && KeyLess(a[1..], b[1..])))
  }

  /** The tuples agree up to a place where the first one ends or has the smaller string. */
  ghost predicate PartKeysAt(a: seq<string>, b: seq<string>, n: nat) {
    n <= |a| && n < |b| && (forall i :: 0 <= i < n ==> a[i] == b[i]) && (n == |a| || Less(a[n], b[n]))
  }

  lemma PartKeysLater(a: seq<string>, b: seq<string>, n: nat)
    requires a != [] && b != [] && a[0] == b[0]
    ensures PartKeysAt(a, b, n + 1) <==> PartKeysAt(a[1..], b[1..], n)
    ensures !PartKeysAt(a, b, 0)
  {
    LessIsTotal(a[0], b[0]);
    assert PartKeysAt(a, b, n + 1) ==> forall i :: 0 <= i < n ==> a[1..][i] == a[i + 1] == b[i + 1] == b[1..][i];
    assert PartKeysAt(a[1..], b[1..], n) ==>
        forall i :: 1 <= i < n + 1 ==> a[i] == a[1..][i - 1] == b[1..][i - 1] == b[i];
  }

  lemma KeyLessUnfolds(a: seq<string>, b: seq<string>)
    ensures KeyLess(a, b) <==>
            if a != [] && b != [] && a[0] == b[0] then KeyLess(a[1..], b[1..]) else PartKeysAt(a, b, 0)
    ensures (a == [] || b == [] || a[0] != b[0]) ==> forall n: nat :: PartKeysAt(a, b, n) ==> n == 0
  {
    if a != [] {
      LessIsTotal(a[0], a[0]);
    }
  }

  lemma {:induction false} KeyLessExactly(a: seq<string>, b: seq<string>)
    ensures KeyLess(a, b) <==> exists n: nat :: PartKeysAt(a, b, n)
  {
    KeyLessUnfolds(a, b);
    if a != [] && b != [] && a[0] == b[0] {
      KeyLessExactly(a[1..], b[1..]);
      if n: nat :| PartKeysAt(a[1..], b[1..], n) {
        PartKeysLater(a, b, n);
      }
      if n: nat :| PartKeysAt(a, b, n) {
        PartKeysLater(a, b, 0);
        PartKeysLater(a, b, n - 1);
      }
    }
  }

  lemma {:induction false} KeyLessIsTransitive(a: seq<string>, b: seq<string>, c: seq<string>)
    requires KeyLess(a, b) && KeyLess(b, c)
    ensures KeyLess(a, c)
  {
    if a != [] {
      if Less(a[0], b[0]) && Less(b[0], c[0]) {
        LessIsTransitive(a[0], b[0], c[0]);
      } else if a[0] == b[0] && b[0] == c[0] {
        KeyLessIsTransitive(a[1..], b[1..], c[1..]);
      }
    }
  }

  lemma {:induction false} KeyLessIsTotal(a: seq<string>, b: seq<string>)
    ensures KeyLess(a, b) || KeyLess(b, a) || a == b
    ensures !(KeyLess(a, b) && KeyLess(b, a))
  {
    if a != [] && b != [] {
      LessIsTotal(a[0], b[0]);
      KeyLessIsTotal(a[1..], b[1..]);
      if a[0] == b[0] && a[1..] == b[1..] {
        assert a == [a[0]] + a[1..] && b == [b[0]] + b[1..];
      }
    }
  }

  /** A strict order in which being tied is transitive too. */
  ghost predicate IsOrder<T(!new)>(less: (T, T) -> bool) {
    && (forall a, b :: less(a, b) ==> !less(b, a))
    && (forall a, b, c :: less(a, c) ==> less(a, b) || less(b, c))
  }

  lemma StringsAreOrdered()
    ensures IsOrder(Less)
  {
    forall a: string, b: string, c: string
      ensures (Less(a, b) ==> !Less(b, a)) && (Less(a, c) ==> Less(a, b) || Less(b, c))
    {
      LessIsTotal(a, b);
      LessIsTotal(b, c);
      if Less(b, a) && Less(a, c) {
        LessIsTransitive(b, a, c);
      }
    }
  }

  lemma KeysAreOrdered()
    ensures IsOrder(KeyLess)
  {
    forall a: seq<string>, b: seq<string>, c: seq<string>
      ensures (KeyLess(a, b) ==> !KeyLess(b, a)) && (KeyLess(a, c) ==> KeyLess(a, b) || KeyLess(b, c))
    {
      KeyLessIsTotal(a, b);
      KeyLessIsTotal(b, c);
      if KeyLess(b, a) && KeyLess(a, c) {
        KeyLessIsTransitive(b, a, c);
      }
    }
  }

  /** Comparing by a key is an order if comparing the keys is. */
  lemma OrderByKey<T(!new), K(!new)>(key: T -> K, base: (K, K) -> bool, less: (T, T) -> bool)
    requires IsOrder(base) && forall a, b :: less(a, b) == base(key(a), key(b))
    ensures IsOrder(less)
  {
  }

  ghost predicate SortedBy<T>(xs: seq<T>, less: (T, T) -> bool) {
    forall i, j :: 0 <= i < j < |xs| ==> !less(xs[j], xs[i])
  }

  ghost predicate StrictlySortedBy<T>(xs: seq<T>, less: (T, T) -> bool) {
    forall i, j :: 0 <= i < j < |xs| ==> less(xs[i], xs[j])
  }

  function Insert<T>(x: T, xs: seq<T>, less: (T, T) -> bool): (r: seq<T>)
    ensures multiset(r) == multiset(xs) + multiset{x}
  {
    if xs == [] then [x]
    else if less(x, xs[0]) then [x] + xs
    else
      assert xs == [xs[0]] + xs[1..];
      [xs[0]] + Insert(x, xs[1..], less)
  }

  /** Insertion from the left, each element behind those it is tied with: stable. */
  function Sort<T>(xs: seq<T>, less: (T, T) -> bool): (r: seq<T>)
    ensures multiset(r) == multiset(xs)
  {
    if xs == [] then []
    else
      assert xs == xs[..|xs| - 1] + [xs[|xs| - 1]];
      Insert(xs[|xs| - 1], Sort(xs[..|xs| - 1], less), less)
  }

  lemma SameMembers<T>(xs: seq<T>, ys: seq<T>)
    requires multiset(xs) == multiset(ys)
    ensures |xs| == |ys| && forall x :: x in xs <==> x in ys
  {
    assert |multiset(xs)| == |multiset(ys)|;
    forall x ensures x in xs <==> x in ys {
      assert x in multiset(xs) <==> x in multiset(ys);
    }
  }

  lemma InsertedFrom<T>(x: T, xs: seq<T>, less: (T, T) -> bool, y: T)
    requires y in Insert(x, xs, less)
    ensures y == x || y in xs
  {
    assert y in multiset(Insert(x, xs, less));
  }

  lemma {:induction false} InsertKeepsSorted<T(!new)>(x: T, xs: seq<T>, less: (T, T) -> bool)
    requires IsOrder(less) && SortedBy(xs, less)
    ensures SortedBy(Insert(x, xs, less), less)
  {
    if xs != [] && !less(x, xs[0]) {
      InsertKeepsSorted(x, xs[1..], less);
      var tail := Insert(x, xs[1..], less);
      forall j | 0 <= j < |tail| ensures !less(tail[j], xs[0]) {
        InsertedFrom(x, xs[1..], less, tail[j]);
      }
    }
  }

  lemma {:induction false} SortSorts<T(!new)>(xs: seq<T>, less: (T, T) -> bool)
    requires IsOrder(less)
    ensures SortedBy(Sort(xs, less), less)
  {
    if xs != [] {
      SortSorts(xs[..|xs| - 1], less);
      InsertKeepsSorted(xs[|xs| - 1], Sort(xs[..|xs| - 1], less), less);
    }
  }

  /** The elements that are tied with x, in their order. */
  ghost function Tied<T(!new)>(xs: seq<T>, x: T, less: (T, T) -> bool): seq<T> {
    if xs == [] then []
    else if !less(xs[0], x) && !less(x, xs[0]) then [xs[0]] + Tied(xs[1..], x, less)
    else Tied(xs[1..], x, less)
  }

  lemma {:induction false} TiedOfMore<T(!new)>(xs: seq<T>, y: T, x: T, less: (T, T) -> bool)
    ensures Tied(xs + [y], x, less) ==
            Tied(xs, x, less) + if !less(y, x) && !less(x, y) then [y] else []
  {
    if xs == [] {
      assert xs + [y] == [y];
    } else {
      assert (xs + [y])[1..] == xs[1..] + [y];
      TiedOfMore(xs[1..], y, x, less);
    }
  }

  lemma {:induction false} NoneIsTied<T(!new)>(xs: seq<T>, x: T, less: (T, T) -> bool)
    requires forall i :: 0 <= i < |xs| ==> less(x, xs[i])
    ensures Tied(xs, x, less) == []
  {
    if xs != [] {
      NoneIsTied(xs[1..], x, less);
    }
  }

  lemma {:induction false} InsertIsStable<T(!new)>(y: T, xs: seq<T>, x: T, less: (T, T) -> bool)
    requires IsOrder(less) && SortedBy(xs, less)
    ensures Tied(Insert(y, xs, less), x, less) == Tied(xs + [y], x, less)
  {
    TiedOfMore(xs, y, x, less);
    if xs == [] {
      assert xs + [y] == [y];
    } else if less(y, xs[0]) {
      assert ([y] + xs)[1..] == xs;
      if !less(y, x) && !less(x, y) {
        forall i | 0 <= i < |xs| ensures less(x, xs[i]) {
          assert less(y, x) || less(x, xs[0]);
        }
        NoneIsTied(xs, x, less);
      }
    } else {
      assert ([xs[0]] + Insert(y, xs[1..], less))[1..] == Insert(y, xs[1..], less);
      assert (xs + [y])[1..] == xs[1..] + [y];
      InsertIsStable(y, xs[1..], x, less);
    }
  }

  /** Sorting keeps the order of what is tied. */
  lemma {:induction false} SortIsStable<T(!new)>(xs: seq<T>, x: T, less: (T, T) -> bool)
    requires IsOrder(less)
    ensures Tied(Sort(xs, less), x, less) == Tied(xs, x, less)
  {
    if xs != [] {
      var init, last := xs[..|xs| - 1], xs[|xs| - 1];
      SortSorts(init, less);
      SortIsStable(init, x, less);
      InsertIsStable(last, Sort(init, less), x, less);
      TiedOfMore(Sort(init, less), last, x, less);
      TiedOfMore(init, last, x, less);
      assert init + [last] == xs;
    }
  }

  ghost predicate Comparable<T>(x: T, y: T, less: (T, T) -> bool) {
    less(x, y) || less(y, x)
  }

  ghost predicate NoneTied<T>(xs: seq<T>, less: (T, T) -> bool) {
    forall i, j :: 0 <= i < j < |xs| ==> Comparable(xs[i], xs[j], less)
  }

  lemma {:induction false} InsertKeepsStrict<T(!new)>(x: T, xs: seq<T>, less: (T, T) -> bool)
    requires IsOrder(less) && StrictlySortedBy(xs, less)
    requires forall y :: y in xs ==> Comparable(y, x, less)
    ensures StrictlySortedBy(Insert(x, xs, less), less)
  {
    if xs != [] {
      assert xs[0] in xs && Comparable(xs[0], x, less);
      if less(x, xs[0]) {
        forall j | 1 <= j < |xs| ensures less(x, xs[j]) {
          assert xs[j] in xs && less(xs[0], xs[j]);
        }
      } else {
        InsertKeepsStrict(x, xs[1..], less);
        var tail := Insert(x, xs[1..], less);
        forall j | 0 <= j < |tail| ensures less(xs[0], tail[j]) {
          InsertedFrom(x, xs[1..], less, tail[j]);
        }
      }
    }
  }

  /** What has no ties is strictly sorted by sorting. */
  lemma {:induction false} SortOfUntied<T(!new)>(xs: seq<T>, less: (T, T) -> bool)
    requires IsOrder(less) && NoneTied(xs, less)
    ensures StrictlySortedBy(Sort(xs, less), less)
  {
    if xs != [] {
      var init, last := xs[..|xs| - 1], xs[|xs| - 1];
      SortOfUntied(init, less);
      forall y | y in Sort(init, less) ensures Comparable(y, last, less) {
        assert y in multiset(Sort(init, less)) && y in multiset(init);
        var i :| 0 <= i < |init| && init[i] == y;
        assert xs[i] == y;
      }
      InsertKeepsStrict(last, Sort(init, less), less);
    }
  }
}
