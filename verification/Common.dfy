/** Small vocabulary shared by every component of the model. */
module Common {

  datatype Option<+T> = None | Some(value: T)

  /** The entry at k, or zero. */
  function Get<K>(m: map<K, int>, k: K): int {
    if k in m then m[k] else 0
  }

  /** The sum of the entries. */
  ghost function Sum<K>(m: map<K, int>): int
    decreases |m|
  {
    if m == map[] then 0
    else
      var k :| k in m;
      assert |m - {k}| < |m| by { RemoveKeySize(m, k); }
      m[k] + Sum(m - {k})
  }

  lemma {:induction false} RemoveKeySize<K, V>(m: map<K, V>, k: K)
    requires k in m
    ensures |m - {k}| == |m| - 1
  {
    assert (m - {k}).Keys == m.Keys - {k};
  }

  /** The sum does not depend on which key is taken out first. */
  lemma {:induction false} SumRemove<K>(m: map<K, int>, k: K)
    requires k in m
    ensures Sum(m) == m[k] + Sum(m - {k})
    decreases |m|
  {
    var k0 :| k0 in m && Sum(m) == m[k0] + Sum(m - {k0});
    if k0 != k {
      RemoveKeySize(m, k0);
      RemoveKeySize(m, k);
      SumRemove(m - {k0}, k);
      SumRemove(m - {k}, k0);
      assert m - {k0} - {k} == m - {k} - {k0};
    }
  }

  lemma {:induction false} SumUpdate<K>(m: map<K, int>, k: K, v: int)
    ensures Sum(m[k := v]) == Sum(m) - Get(m, k) + v
  {
    SumRemove(m[k := v], k);
    assert m[k := v] - {k} == m - {k};
    if k in m {
      SumRemove(m, k);
    } else {
      assert m - {k} == m;
    }
  }

  lemma {:induction false} SumNonNegative<K>(m: map<K, int>)
    requires forall k :: k in m ==> m[k] >= 0
    ensures Sum(m) >= 0
    decreases |m|
  {
    if m != map[] {
      var k :| k in m;
      SumRemove(m, k);
      RemoveKeySize(m, k);
      SumNonNegative(m - {k});
    }
  }

  /** Sums of disjoint maps add up. */
  lemma {:induction false} SumDisjoint<K>(a: map<K, int>, b: map<K, int>)
    requires forall k :: k in a ==> k !in b
    ensures Sum(a + b) == Sum(a) + Sum(b)
    decreases |b|
  {
    if b == map[] {
      assert a + b == a;
    } else {
      var k :| k in b;
      RemoveKeySize(b, k);
      SumDisjoint(a, b - {k});
      SumRemove(b, k);
      SumUpdate(a + (b - {k}), k, b[k]);
      MergeKey(a, b, k);
    }
  }

  lemma MergeKey<K, V>(a: map<K, V>, b: map<K, V>, k: K)
    requires k in b && k !in a
    ensures a + b == (a + (b - {k}))[k := b[k]]
    ensures k !in a + (b - {k})
  {
  }

  lemma MapEquality<K, V>(a: map<K, V>, b: map<K, V>)
    requires forall k :: k in a ==> k in b && a[k] == b[k]
    requires forall k :: k in b ==> k in a
    ensures a == b
  {
  }

  lemma {:induction false} SubsetSize<T>(a: set<T>, b: set<T>)
    requires a <= b
    ensures |a| <= |b| && (a != b ==> |a| < |b|)
  {
    assert b == a + (b - a);
    assert a != b ==> b - a != {};
  }

  /** One more member seen, one fewer to come. */
  lemma {:induction false} Shrinks<T>(all: set<T>, some: set<T>, x: T)
    requires x in all && x !in some
    ensures |all - (some + {x})| < |all - some|
  {
    assert all - some == (all - (some + {x})) + {x};
  }

  predicate Distinct<T(==)>(s: seq<T>) {
    forall i, j :: 0 <= i < j < |s| ==> s[i] != s[j]
  }

  ghost function Elements<T(!new)>(s: seq<T>): (r: set<T>)
    ensures forall x :: x in r <==> x in s
  {
    set x | x in s
  }

  lemma {:induction false} DistinctSize<T(!new)>(s: seq<T>)
    requires Distinct(s)
    ensures |Elements(s)| == |s|
  {
    if s == [] {
      assert Elements(s) == {};
    } else {
      var t, x := s[..|s| - 1], s[|s| - 1];
      DistinctSize(t);
      assert Elements(s) == Elements(t) + {x};
      assert x !in t;
    }
  }

  /** An a stands before a b. */
  ghost predicate Before<T(!new)>(s: seq<T>, a: T, b: T) {
    exists i, j :: 0 <= i < j < |s| && s[i] == a && s[j] == b
  }

  /** Whatever was removed, what is left stands in the order in which it stood. */
  ghost predicate InOrder<T(!new)>(s: seq<T>, all: seq<T>) {
    (forall a :: a in s ==> a in all) && forall a, b :: Before(s, a, b) ==> Before(all, a, b)
  }

  lemma SameOrder<T(!new)>(s: seq<T>)
    ensures InOrder(s, s)
  {
  }

  lemma {:induction false} InOrderTransitive<T(!new)>(a: seq<T>, b: seq<T>, c: seq<T>)
    requires InOrder(a, b) && InOrder(b, c)
    ensures InOrder(a, c)
  {
  }

  lemma {:induction false} OneBehind<T(!new)>(s: seq<T>, all: seq<T>, z: T)
    requires InOrder(s, all)
    ensures InOrder(s + [z], all + [z])
  {
    forall a, b | Before(s + [z], a, b) ensures Before(all + [z], a, b) {
      var i, j :| 0 <= i < j < |s + [z]| && (s + [z])[i] == a && (s + [z])[j] == b;
      if j < |s| {
        assert s[i] == a && s[j] == b && Before(s, a, b);
        var k, l :| 0 <= k < l < |all| && all[k] == a && all[l] == b;
        assert (all + [z])[k] == a && (all + [z])[l] == b;
      } else {
        assert s[i] == a && a in all;
        var k :| 0 <= k < |all| && all[k] == a;
        assert (all + [z])[k] == a && (all + [z])[|all|] == b;
      }
    }
  }

  lemma {:induction false} Behind<T(!new)>(all: seq<T>, z: T)
    ensures InOrder(all, all + [z])
  {
    forall a, b | Before(all, a, b) ensures Before(all + [z], a, b) {
      var i, j :| 0 <= i < j < |all| && all[i] == a && all[j] == b;
      assert (all + [z])[i] == a && (all + [z])[j] == b;
    }
  }
}

/** Identifiers are strings, compared character by character. */
module Order {
  import opened Common

  predicate Less(a: string, b: string) {
    b != [] && (a == [] || a[0] < b[0] || (a[0] == b[0] && Less(a[1..], b[1..])))
  }

  /** a and b agree up to n, where a ends or has the smaller character. */
  ghost predicate SmallerAt(a: string, b: string, n: int) {
    0 <= n <= |a| && n < |b| && a[..n] == b[..n] && (n == |a| || a[n] < b[n])
  }

  /** The order is that of the first difference. */
  lemma {:induction false} LessExactly(a: string, b: string)
    ensures Less(a, b) <==> exists n :: SmallerAt(a, b, n)
  {
    if Less(a, b) {
      FirstDifference(a, b);
    }
    if n :| SmallerAt(a, b, n) {
      DifferenceOrders(a, b, n);
    }
  }

  lemma {:induction false} FirstDifference(a: string, b: string)
    requires Less(a, b)
    ensures exists n :: SmallerAt(a, b, n)
  {
    if a == [] || a[0] < b[0] {
      assert SmallerAt(a, b, 0);
    } else {
      FirstDifference(a[1..], b[1..]);
      var n :| SmallerAt(a[1..], b[1..], n);
      assert a[..n + 1] == [a[0]] + a[1..][..n] && b[..n + 1] == [b[0]] + b[1..][..n];
      assert SmallerAt(a, b, n + 1);
    }
  }

  lemma {:induction false} DifferenceOrders(a: string, b: string, n: int)
    requires SmallerAt(a, b, n)
    ensures Less(a, b)
  {
    if n > 0 {
      assert a[0] == a[..n][0] == b[..n][0] == b[0];
      assert a[1..][..n - 1] == a[..n][1..] && b[1..][..n - 1] == b[..n][1..];
      DifferenceOrders(a[1..], b[1..], n - 1);
    }
  }

  lemma {:induction false} LessTotal(a: string, b: string)
    ensures a == b || Less(a, b) || Less(b, a)
  {
    if a != [] && b != [] && a[0] == b[0] {
      LessTotal(a[1..], b[1..]);
      assert a == [a[0]] + a[1..] && b == [b[0]] + b[1..];
    }
  }

  lemma {:induction false} LessAsymmetric(a: string, b: string)
    ensures Less(a, b) ==> !Less(b, a) && a != b
  {
    if a != [] && b != [] && a[0] == b[0] {
      LessAsymmetric(a[1..], b[1..]);
    }
  }

  lemma {:induction false} LessTransitive(a: string, b: string, c: string)
    requires Less(a, b) && Less(b, c)
    ensures Less(a, c)
  {
    if a != [] && a[0] == b[0] && b[0] == c[0] {
      LessTransitive(a[1..], b[1..], c[1..]);
    }
  }

  ghost predicate Sorted(s: seq<string>) {
    forall i, j :: 0 <= i < j < |s| ==> s[i] == s[j] || Less(s[i], s[j])
  }

  /** The list in order, by insertion from the right. */
  function Sort(s: seq<string>): (r: seq<string>)
    ensures multiset(r) == multiset(s)
    ensures |r| == |s|
  {
    if s == [] then []
    else
      assert s == [s[0]] + s[1..];
      Insert(Sort(s[1..]), s[0])
  }

  function Insert(s: seq<string>, x: string): (r: seq<string>)
    ensures multiset(r) == multiset(s) + multiset{x}
    ensures |r| == |s| + 1
  {
    if s == [] then [x]
    else
      assert s == [s[0]] + s[1..];
      if Less(s[0], x) then [s[0]] + Insert(s[1..], x) else [x] + s
  }

  lemma {:induction false} InsertSorted(s: seq<string>, x: string)
    requires Sorted(s)
    ensures Sorted(Insert(s, x))
  {
    var r := Insert(s, x);
    if s != [] {
      if Less(s[0], x) {
        InsertSorted(s[1..], x);
        var t := Insert(s[1..], x);
        forall j | 0 <= j < |t| ensures s[0] == t[j] || Less(s[0], t[j]) {
          assert t[j] in multiset(t);
          assert t[j] in multiset(s[1..]) + multiset{x};
          if t[j] != x {
            assert t[j] in s[1..];
          }
        }
      } else {
        LessTotal(s[0], x);
        forall j | 0 <= j < |s| ensures x == s[j] || Less(x, s[j]) {
          if 0 < j && x != s[0] && s[j] != s[0] {
            LessTransitive(x, s[0], s[j]);
          }
        }
      }
    }
  }

  lemma {:induction false} SortSorted(s: seq<string>)
    ensures Sorted(Sort(s))
  {
    if s != [] {
      SortSorted(s[1..]);
      InsertSorted(Sort(s[1..]), s[0]);
    }
  }

  /** A set has only one sorted listing without repetitions. */
  lemma {:induction false} SortedUnique(a: seq<string>, b: seq<string>)
    requires Sorted(a) && Sorted(b) && Distinct(a) && Distinct(b)
    requires Elements(a) == Elements(b)
    ensures a == b
  {
    DistinctSize(a);
    DistinctSize(b);
    if a != [] {
      FirstIsLeast(a, b);
      FirstIsLeast(b, a);
      LessAsymmetric(a[0], b[0]);
      var x := a[0];
      assert Elements(a[1..]) == Elements(a) - {x} by { assert a == [x] + a[1..]; }
      assert Elements(b[1..]) == Elements(b) - {x} by { assert b == [x] + b[1..]; }
      SortedUnique(a[1..], b[1..]);
      assert a == [x] + a[1..] && b == [x] + b[1..];
    }
  }

  lemma {:induction false} FirstIsLeast(a: seq<string>, b: seq<string>)
    requires Sorted(a) && a != [] && b != [] && Elements(a) == Elements(b)
    ensures a[0] == b[0] || Less(a[0], b[0])
  {
    assert b[0] in Elements(b);
    var i :| 0 <= i < |a| && a[i] == b[0];
  }

  lemma {:induction false} DistinctOnce(s: seq<string>, x: string)
    requires Distinct(s)
    ensures multiset(s)[x] <= 1
  {
    if s != [] {
      assert s == [s[0]] + s[1..];
      DistinctOnce(s[1..], x);
      if x == s[0] {
        assert x !in s[1..];
      }
    }
  }

  lemma {:induction false} RepeatCounts(s: seq<string>, i: nat, j: nat)
    requires i < j < |s| && s[i] == s[j]
    ensures multiset(s)[s[i]] >= 2
  {
    assert s == s[..i] + [s[i]] + s[i + 1..j] + [s[j]] + s[j + 1..];
  }

  lemma {:induction false} SortDistinct(s: seq<string>)
    requires Distinct(s)
    ensures Distinct(Sort(s))
    ensures Elements(Sort(s)) == Elements(s)
  {
    var r := Sort(s);
    forall x ensures x in r <==> x in s {
      assert x in multiset(r) <==> x in r;
      assert x in multiset(s) <==> x in s;
    }
    forall i, j | 0 <= i < j < |r| ensures r[i] != r[j] {
      DistinctOnce(s, r[i]);
      if r[i] == r[j] {
        RepeatCounts(r, i, j);
      }
    }
  }

  /** `l` is sorted(s) for the set s. */
  ghost predicate Lists(l: seq<string>, s: set<string>) {
    Sorted(l) && Distinct(l) && Elements(l) == s
  }

  lemma {:induction false} ListExists(s: set<string>) returns (l: seq<string>)
    ensures Lists(l, s)
  {
    if s == {} {
      l := [];
    } else {
      var x :| x in s;
      var rest := ListExists(s - {x});
      assert Distinct(rest + [x]);
      l := Sort(rest + [x]);
      SortSorted(rest + [x]);
      SortDistinct(rest + [x]);
    }
  }

  ghost function SortedList(s: set<string>): (l: seq<string>)
    ensures Lists(l, s)
  {
    assert exists l :: Lists(l, s) by {
      var l := ListExists(s);
      assert Lists(l, s);
    }
    var l :| Lists(l, s);
    l
  }

  /** The elements of a set in some order. */
  method ListSet(s: set<string>) returns (l: seq<string>)
    ensures Distinct(l) && Elements(l) == s
  {
    l := [];
    var left := s;
    while left != {}
      invariant left <= s && Distinct(l) && Elements(l) == s - left
      decreases |left|
    {
      var x :| x in left;
      assert x !in Elements(l);
      l, left := l + [x], left - {x};
    }
  }

  /** The elements of a set in order. */
  method SortSet(s: set<string>) returns (l: seq<string>)
    ensures l == SortedList(s)
  {
    var some := ListSet(s);
    l := Sort(some);
    SortSorted(some);
    SortDistinct(some);
    SortedUnique(l, SortedList(s));
  }
}
