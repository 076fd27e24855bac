/**
 Orders used by the services to make their output deterministic: the
 lexicographic order of Go strings, stable sorting under a comparator, and the
 fact that a sorted arrangement without ties is unique.
 */
module Orders {

  /** Go's `<` on strings. On valid UTF-8, byte order is code point order. */
  predicate Less(a: string, b: string)
    decreases |b|
  {
    if |b| == 0 then false
    else if |a| == 0 then true
    else a[0] < b[0] || (a[0] == b[0] && Less(a[1..], b[1..]))
  }

  ghost predicate StrictWeak<T(!new)>(less: (T, T) -> bool) {
    && (forall x :: !less(x, x))
    && (forall x, y, z :: less(x, y) && less(y, z) ==> less(x, z))
    && (forall x, y, z :: less(x, z) ==> less(x, y) || less(y, z))
  }

  ghost predicate StrictTotal<T(!new)>(less: (T, T) -> bool) {
    && (forall x :: !less(x, x))
    && (forall x, y, z :: less(x, y) && less(y, z) ==> less(x, z))
    && (forall x, y :: x == y || less(x, y) || less(y, x))
  }

  lemma TotalIsWeak<T(!new)>(less: (T, T) -> bool)
    requires StrictTotal(less)
    ensures StrictWeak(less)
  {
    forall x, y, z | less(x, z) ensures less(x, y) || less(y, z) {
      assert x == y || less(x, y) || less(y, x);
    }
  }

  lemma {:induction false} LessIrreflexive(a: string)
    ensures !Less(a, a)
    decreases |a|
  {
    if |a| > 0 { LessIrreflexive(a[1..]); }
  }

  lemma {:induction false} LessTransitive(a: string, b: string, c: string)
    requires Less(a, b) && Less(b, c)
    ensures Less(a, c)
    decreases |b|
  {
    if |a| > 0 && a[0] == b[0] == c[0] { LessTransitive(a[1..], b[1..], c[1..]); }
  }

  lemma {:induction false} LessTrichotomy(a: string, b: string)
    ensures a == b || Less(a, b) || Less(b, a)
    decreases |a|
  {
    if |a| > 0 && |b| > 0 && a[0] == b[0] {
      LessTrichotomy(a[1..], b[1..]);
      assert a == [a[0]] + a[1..] && b == [b[0]] + b[1..];
    }
  }

  lemma LessTotal()
    ensures StrictTotal(Less)
  {
    forall a { LessIrreflexive(a); }
    forall a, b, c | Less(a, b) && Less(b, c) ensures Less(a, c) { LessTransitive(a, b, c); }
    forall a, b ensures a == b || Less(a, b) || Less(b, a) { LessTrichotomy(a, b); }
  }

  /** The strings agree up to position `k`, where `a` ends first or has the smaller character. */
  ghost predicate SmallerAt(a: string, b: string, k: nat) {
    && k <= |a| && k < |b| && a[..k] == b[..k]
    && (k < |a| ==> a[k] < b[k])
  }

  /** The order is lexicographic: decided at the first difference, a proper prefix coming first. */
  lemma {:induction false} LessIff(a: string, b: string)
    ensures Less(a, b) <==> exists k :: SmallerAt(a, b, k)
    decreases |b|
  {
    if |b| > 0 {
      if |a| == 0 || a[0] < b[0] { assert SmallerAt(a, b, 0); }
      if |a| > 0 && a[0] == b[0] {
        LessIff(a[1..], b[1..]);
        assert a == [a[0]] + a[1..] && b == [b[0]] + b[1..];
        if k: nat :| SmallerAt(a[1..], b[1..], k) {
          assert a[..k + 1] == [a[0]] + a[1..][..k] && b[..k + 1] == [b[0]] + b[1..][..k];
          assert SmallerAt(a, b, k + 1);
        }
        if k: nat :| SmallerAt(a, b, k) {
          assert k > 0;
          assert a[1..][..k - 1] == a[..k][1..] && b[1..][..k - 1] == b[..k][1..];
          assert SmallerAt(a[1..], b[1..], k - 1);
        }
      } else if k: nat :| SmallerAt(a, b, k) {
        if k > 0 { assert a[..k][0] == b[..k][0]; }
      }
    }
  }

  ghost predicate Sorted<T>(less: (T, T) -> bool, s: seq<T>) {
    forall i, j | 0 <= i < j < |s| :: !less(s[j], s[i])
  }

  ghost predicate StrictlySorted<T>(less: (T, T) -> bool, s: seq<T>) {
    forall i, j | 0 <= i < j < |s| :: less(s[i], s[j])
  }

  /** Places `x` in front of the first element it is not greater than. */
  function InsertFront<T>(less: (T, T) -> bool, x: T, s: seq<T>): seq<T> {
    if s == [] then [x]
    else if less(s[0], x) then [s[0]] + InsertFront(less, x, s[1..])
    else [x] + s
  }

  /** Go's `sort.SliceStable` (and `slices.Sort`) as a function of the slice. */
  function StableSort<T>(less: (T, T) -> bool, s: seq<T>): seq<T> {
    if s == [] then [] else InsertFront(less, s[0], StableSort(less, s[1..]))
  }

  lemma {:induction false} InsertPermutes<T>(less: (T, T) -> bool, x: T, s: seq<T>)
    ensures multiset(InsertFront(less, x, s)) == multiset{x} + multiset(s)
  {
    if s != [] && less(s[0], x) {
      InsertPermutes(less, x, s[1..]);
      assert s == [s[0]] + s[1..];
    }
  }

  lemma {:induction false} SortPermutes<T>(less: (T, T) -> bool, s: seq<T>)
    ensures multiset(StableSort(less, s)) == multiset(s)
  {
    if s != [] {
      SortPermutes(less, s[1..]);
      InsertPermutes(less, s[0], StableSort(less, s[1..]));
      assert s == [s[0]] + s[1..];
    }
  }

  lemma {:induction false} InsertMembers<T>(less: (T, T) -> bool, x: T, s: seq<T>, y: T)
    requires y in InsertFront(less, x, s)
    ensures y == x || y in s
  {
    if s != [] && less(s[0], x) && y != s[0] { InsertMembers(less, x, s[1..], y); }
  }

  lemma {:induction false} InsertSorts<T(!new)>(less: (T, T) -> bool, x: T, s: seq<T>)
    requires StrictWeak(less) && Sorted(less, s)
    ensures Sorted(less, InsertFront(less, x, s))
  {
    if s != [] {
      if less(s[0], x) {
        var t := InsertFront(less, x, s[1..]);
        InsertSorts(less, x, s[1..]);
        forall j | 0 <= j < |t| ensures !less(t[j], s[0]) { InsertMembers(less, x, s[1..], t[j]); }
        SortedAfter(less, s[0], t);
      } else {
        assert forall j | 0 <= j < |s| :: less(s[j], x) ==> less(s[j], s[0]) || less(s[0], x);
        SortedAfter(less, x, s);
      }
    }
  }

  lemma SortedAfter<T(!new)>(less: (T, T) -> bool, x: T, s: seq<T>)
    requires Sorted(less, s) && forall j | 0 <= j < |s| :: !less(s[j], x)
    ensures Sorted(less, [x] + s)
  {
    var r := [x] + s;
    assert forall i | 1 <= i < |r| :: r[i] == s[i - 1];
  }

  lemma {:induction false} SortSorts<T(!new)>(less: (T, T) -> bool, s: seq<T>)
    requires StrictWeak(less)
    ensures Sorted(less, StableSort(less, s))
  {
    if s != [] {
      SortSorts(less, s[1..]);
      InsertSorts(less, s[0], StableSort(less, s[1..]));
    }
  }

  lemma TailMembers<T(!new)>(less: (T, T) -> bool, a: seq<T>, x: T)
    requires StrictWeak(less) && StrictlySorted(less, a) && a != []
    ensures x in a[1..] <==> x in a && x != a[0]
  {
    assert a == [a[0]] + a[1..];
    assert forall i | 1 <= i < |a| :: a[1..][i - 1] == a[i] && less(a[0], a[i]);
  }

  lemma BothEmpty<T(!new)>(a: seq<T>, b: seq<T>)
    requires forall x :: x in a <==> x in b
    ensures a == [] <==> b == []
  {
    if a != [] {
      var x := a[0];
      assert x in b;
    }
    if b != [] {
      var x := b[0];
      assert x in a;
    }
  }

  /** Two sequences in strictly increasing order with the same elements are the same sequence. */
  lemma {:induction false} StrictlySortedUnique<T(!new)>(less: (T, T) -> bool, a: seq<T>, b: seq<T>)
    requires StrictWeak(less) && StrictlySorted(less, a) && StrictlySorted(less, b)
    requires forall x :: x in a <==> x in b
    ensures a == b
  {
    BothEmpty(a, b);
    if a != [] {
      assert a[0] in b;
      assert b[0] in a;
      assert a[0] == b[0];
      forall x ensures x in a[1..] <==> x in b[1..] {
        TailMembers(less, a, x);
        TailMembers(less, b, x);
        assert x in a <==> x in b;
      }
      StrictlySortedUnique(less, a[1..], b[1..]);
      assert a == [a[0]] + a[1..] && b == [b[0]] + b[1..];
    }
  }

  ghost predicate TieFree<T>(less: (T, T) -> bool, s: seq<T>) {
    forall i, j | 0 <= i < |s| && 0 <= j < |s| :: s[i] == s[j] || less(s[i], s[j]) || less(s[j], s[i])
  }

  lemma SortedHeads<T(!new)>(less: (T, T) -> bool, a: seq<T>, b: seq<T>)
    requires StrictWeak(less) && Sorted(less, a) && Sorted(less, b)
    requires multiset(a) == multiset(b) && TieFree(less, a) && a != [] && b != []
    ensures a[0] == b[0]
  {
    assert a[0] in multiset(b) && b[0] in multiset(a);
    var i :| 0 <= i < |b| && b[i] == a[0];
    var j :| 0 <= j < |a| && a[j] == b[0];
    var u, v := a[0], a[j];
    assert u == v || less(u, v) || less(v, u);
  }

  lemma SameLength<T>(a: seq<T>, b: seq<T>)
    requires multiset(a) == multiset(b)
    ensures |a| == |b|
  {
    assert |multiset(a)| == |a| && |multiset(b)| == |b|;
  }

  lemma TailMultiset<T>(a: seq<T>)
    requires a != []
    ensures multiset(a[1..]) == multiset(a) - multiset{a[0]}
  {
    assert a == [a[0]] + a[1..];
  }

  lemma SortedTail<T>(less: (T, T) -> bool, a: seq<T>)
    requires a != [] && Sorted(less, a)
    ensures Sorted(less, a[1..]) && (TieFree(less, a) ==> TieFree(less, a[1..]))
  {
    assert forall i | 0 <= i < |a| - 1 :: a[1..][i] == a[i + 1];
  }

  lemma TailsPermute<T>(a: seq<T>, b: seq<T>)
    requires multiset(a) == multiset(b) && a != [] && b != [] && a[0] == b[0]
    ensures multiset(a[1..]) == multiset(b[1..])
  {
    TailMultiset(a);
    TailMultiset(b);
  }

  /** Two sorted permutations of the same elements are equal when no two distinct elements tie. */
  lemma {:induction false} SortedUnique<T(!new)>(less: (T, T) -> bool, a: seq<T>, b: seq<T>)
    requires StrictWeak(less) && Sorted(less, a) && Sorted(less, b)
    requires multiset(a) == multiset(b) && TieFree(less, a)
    ensures a == b
  {
    SameLength(a, b);
    if a != [] {
      SortedHeads(less, a, b);
      TailsPermute(a, b);
      SortedTail(less, a);
      SortedTail(less, b);
      SortedUnique(less, a[1..], b[1..]);
      assert a == [a[0]] + a[1..] && b == [b[0]] + b[1..];
    }
  }

  /** Sorting forgets the input order: permutations sort to the same sequence when nothing ties. */
  lemma SortForgetsOrder<T(!new)>(less: (T, T) -> bool, a: seq<T>, b: seq<T>)
    requires StrictWeak(less) && multiset(a) == multiset(b) && TieFree(less, a)
    ensures StableSort(less, a) == StableSort(less, b)
  {
    var s, t := StableSort(less, a), StableSort(less, b);
    SortPermutes(less, a); SortPermutes(less, b);
    SortSorts(less, a); SortSorts(less, b);
    forall i, j | 0 <= i < |s| && 0 <= j < |s|
      ensures s[i] == s[j] || less(s[i], s[j]) || less(s[j], s[i])
    {
      assert s[i] in multiset(a) && s[j] in multiset(a);
    }
    SortedUnique(less, s, t);
  }

  lemma {:induction false} InsertStrict<T(!new)>(less: (T, T) -> bool, x: T, s: seq<T>)
    requires StrictWeak(less) && StrictlySorted(less, s)
    requires forall i | 0 <= i < |s| :: less(s[i], x) || less(x, s[i])
    ensures StrictlySorted(less, InsertFront(less, x, s))
  {
    if s != [] && less(s[0], x) {
      var t := InsertFront(less, x, s[1..]);
      InsertStrict(less, x, s[1..]);
      InsertPermutes(less, x, s[1..]);
      forall j | 0 <= j < |t| ensures less(s[0], t[j]) {
        assert t[j] in multiset(t);
        assert t[j] == x || t[j] in s[1..];
      }
    } else if s != [] {
      assert less(x, s[0]);
    }
  }

  /** Sorting pairwise comparable elements leaves no ties: the result increases strictly. */
  lemma {:induction false} SortStrict<T(!new)>(less: (T, T) -> bool, s: seq<T>)
    requires StrictWeak(less)
    requires forall i, j | 0 <= i < j < |s| :: less(s[i], s[j]) || less(s[j], s[i])
    ensures StrictlySorted(less, StableSort(less, s))
    ensures forall x :: x in StableSort(less, s) <==> x in s
  {
    SortPermutes(less, s);
    assert forall x :: x in StableSort(less, s) <==> x in multiset(StableSort(less, s));
    if s != [] {
      var t := StableSort(less, s[1..]);
      SortStrict(less, s[1..]);
      forall i | 0 <= i < |t| ensures less(t[i], s[0]) || less(s[0], t[i]) {
        assert t[i] in s[1..];
      }
      InsertStrict(less, s[0], t);
    }
  }

  function Image<T, U>(f: T -> U, s: seq<T>): seq<U> {
    seq(|s|, i requires 0 <= i < |s| => f(s[i]))
  }

  /** Taking one element out takes one image out. */
  lemma ImageWithout<T, U>(f: T -> U, s: seq<T>, i: nat)
    requires i < |s|
    ensures multiset(s) == multiset{s[i]} + multiset(s[..i] + s[i + 1..])
    ensures multiset(Image(f, s)) == multiset{f(s[i])} + multiset(Image(f, s[..i] + s[i + 1..]))
  {
    var u, v := s[..i], s[i + 1..];
    assert s == u + [s[i]] + v;
    assert Image(f, s) == Image(f, u) + [f(s[i])] + Image(f, v);
    assert Image(f, u + v) == Image(f, u) + Image(f, v);
  }

  lemma HeadInOther<T>(a: seq<T>, b: seq<T>) returns (i: nat)
    requires multiset(a) == multiset(b) && a != []
    ensures i < |b| && b[i] == a[0] && multiset(a[1..]) == multiset(b[..i] + b[i + 1..])
  {
    assert a[0] in multiset(b);
    i :| 0 <= i < |b| && b[i] == a[0];
    assert b == b[..i] + [b[i]] + b[i + 1..];
    assert multiset(b) == multiset{a[0]} + multiset(b[..i] + b[i + 1..]);
    TailMultiset(a);
  }

  /** Permutations have permuted images. */
  lemma {:induction false} ImagePermutes<T, U>(f: T -> U, a: seq<T>, b: seq<T>)
    requires multiset(a) == multiset(b)
    ensures multiset(Image(f, a)) == multiset(Image(f, b))
  {
    if a == [] {
      SameLength(a, b);
      assert a == b;
    } else {
      var i := HeadInOther(a, b);
      assert a[..0] + a[1..] == a[1..];
      ImageWithout(f, a, 0);
      ImageWithout(f, b, i);
      hide Image;
      ImagePermutes(f, a[1..], b[..i] + b[i + 1..]);
    }
  }

  /** An element found at one position only occurs once. */
  lemma OccursOnce<T>(s: seq<T>, k: nat)
    requires k < |s| && forall l | 0 <= l < |s| && s[l] == s[k] :: l == k
    ensures multiset(s)[s[k]] == 1
  {
    var u, v := s[..k], s[k + 1..];
    assert s == u + [s[k]] + v;
    assert forall l | 0 <= l < |u| :: u[l] == s[l];
    assert forall l | 0 <= l < |v| :: v[l] == s[k + 1 + l];
    assert s[k] !in multiset(u) && s[k] !in multiset(v);
  }
}
