/** What the library sorts promise, and why each promise leaves only one result. */
module Sorting {

  ghost predicate StrictTotalOrder<K(!new)>(less: (K, K) -> bool) {
    && (forall a, b :: less(a, b) ==> !less(b, a))
    && (forall a, b :: less(a, b) || less(b, a) || a == b)
    && (forall a, b, c :: less(a, b) && less(b, c) ==> less(a, c))
  }

  predicate SortedBy<T, K>(key: T -> K, less: (K, K) -> bool, s: seq<T>) {
    forall i, j :: 0 <= i < j < |s| ==> !less(key(s[j]), key(s[i]))
  }

  function Map<A, B>(f: A -> B, s: seq<A>): (r: seq<B>)
    ensures |r| == |s|
    ensures forall i :: 0 <= i < |s| ==> r[i] == f(s[i])
  {
    seq(|s|, i requires 0 <= i < |s| => f(s[i]))
  }

  /** The lists that `f` gives for the first `k` elements, one after the other. */
  function FlatMap<A, B>(f: A -> seq<B>, s: seq<A>, k: nat): seq<B>
    requires k <= |s|
  {
    if k == 0 then [] else FlatMap(f, s, k - 1) + f(s[k - 1])
  }

  lemma {:induction false} FlatMapEmpty<A, B>(f: A -> seq<B>, s: seq<A>, k: nat)
    requires k <= |s| && forall i :: 0 <= i < k ==> f(s[i]) == []
    ensures FlatMap(f, s, k) == []
  {
    if k > 0 {
      FlatMapEmpty(f, s, k - 1);
    }
  }

  lemma {:induction false} FlatMapSame<A, B>(f: A -> seq<B>, s: seq<A>, t: seq<A>, k: nat)
    requires k <= |s| && k <= |t| && forall i :: 0 <= i < k ==> f(s[i]) == f(t[i])
    ensures FlatMap(f, s, k) == FlatMap(f, t, k)
  {
    if k > 0 {
      FlatMapSame(f, s, t, k - 1);
    }
  }

  lemma {:induction false} FlatMapSingle<A, B>(f: A -> seq<B>, s: seq<A>, k: nat, i: nat)
    requires i < k <= |s| && forall j :: 0 <= j < k && j != i ==> f(s[j]) == []
    ensures FlatMap(f, s, k) == f(s[i])
  {
    if i == k - 1 {
      FlatMapEmpty(f, s, k - 1);
    } else {
      FlatMapSingle(f, s, k - 1, i);
    }
  }

  lemma {:induction false} FlatMapPrefix<A, B>(f: A -> seq<B>, s: seq<A>, x: A, k: nat)
    requires k <= |s|
    ensures FlatMap(f, s + [x], k) == FlatMap(f, s, k)
  {
    if k > 0 {
      FlatMapPrefix(f, s, x, k - 1);
    }
  }

  lemma FlatMapOneMore<A, B>(f: A -> seq<B>, s: seq<A>, x: A)
    ensures FlatMap(f, s + [x], |s| + 1) == FlatMap(f, s, |s|) + f(x)
  {
    FlatMapPrefix(f, s, x, |s|);
  }

  /** A table with one row, computed from the key, for each key among the first `k` elements. */
  function TableOf<A, K, V>(key: A -> K, row: K -> V, s: seq<A>, k: nat): map<K, V>
    requires k <= |s|
  {
    if k == 0 then map[] else TableOf(key, row, s, k - 1)[key(s[k - 1]) := row(key(s[k - 1]))]
  }

  lemma {:induction false} TableAt<A, K, V>(key: A -> K, row: K -> V, s: seq<A>, k: nat, x: K)
    requires k <= |s|
    ensures x in TableOf(key, row, s, k) <==> exists i :: 0 <= i < k && key(s[i]) == x
    ensures x in TableOf(key, row, s, k) ==> TableOf(key, row, s, k)[x] == row(x)
  {
    if k > 0 {
      TableAt(key, row, s, k - 1, x);
    }
  }

  /** The elements of `s` whose key is `k`, in order. */
  function WithKey<T, K(==)>(key: T -> K, k: K, s: seq<T>): seq<T> {
    if s == [] then []
    else (if key(s[0]) == k then [s[0]] else []) + WithKey(key, k, s[1..])
  }

  lemma {:induction false} WithKeyConcat<T, K>(key: T -> K, k: K, s: seq<T>, t: seq<T>)
    ensures WithKey(key, k, s + t) == WithKey(key, k, s) + WithKey(key, k, t)
  {
    if s == [] {
      assert s + t == t;
    } else {
      WithKeyConcat(key, k, s[1..], t);
      WithKeyFirst(key, k, s[0], s[1..] + t);
      assert s + t == [s[0]] + (s[1..] + t);
      AppendAssociative(if key(s[0]) == k then [s[0]] else [], WithKey(key, k, s[1..]), WithKey(key, k, t));
    }
  }

  lemma AppendAssociative<T>(a: seq<T>, b: seq<T>, c: seq<T>)
    ensures a + b + c == a + (b + c)
  {
  }

  lemma WithKeyFirst<T, K>(key: T -> K, k: K, x: T, s: seq<T>)
    ensures WithKey(key, k, [x] + s) == (if key(x) == k then [x] else []) + WithKey(key, k, s)
  {
    assert ([x] + s)[1..] == s;
  }

  /** Stable sorting: sorted, and elements with equal keys keep their order. */
  ghost predicate IsStableSort<T, K(!new)>(key: T -> K, less: (K, K) -> bool, s: seq<T>, sorted: seq<T>) {
    && SortedBy(key, less, sorted)
    && multiset(sorted) == multiset(s)
    && forall k :: WithKey(key, k, sorted) == WithKey(key, k, s)
  }

  function Insert<T, K>(key: T -> K, less: (K, K) -> bool, x: T, s: seq<T>): (r: seq<T>)
    ensures |r| == |s| + 1
  {
    if s == [] || !less(key(s[0]), key(x)) then [x] + s
    else [s[0]] + Insert(key, less, x, s[1..])
  }

  function StableSort<T, K>(key: T -> K, less: (K, K) -> bool, s: seq<T>): (r: seq<T>)
    ensures |r| == |s|
  {
    if s == [] then [] else Insert(key, less, s[0], StableSort(key, less, s[1..]))
  }

  lemma {:induction false} InsertPermutes<T, K>(key: T -> K, less: (K, K) -> bool, x: T, s: seq<T>)
    ensures multiset(Insert(key, less, x, s)) == multiset(s) + multiset{x}
  {
    if !(s == [] || !less(key(s[0]), key(x))) {
      InsertPermutes(key, less, x, s[1..]);
      assert s == [s[0]] + s[1..];
    }
  }

  lemma {:induction false} InsertWithKey<T, K>(key: T -> K, less: (K, K) -> bool, x: T, s: seq<T>, k: K)
    requires forall a :: !less(a, a)
    ensures WithKey(key, k, Insert(key, less, x, s)) == WithKey(key, k, [x]) + WithKey(key, k, s)
  {
    if s == [] || !less(key(s[0]), key(x)) {
      assert ([x] + s)[1..] == s;
    } else {
      InsertWithKey(key, less, x, s[1..], k);
    }
  }

  lemma {:induction false} InsertSorted<T, K(!new)>(key: T -> K, less: (K, K) -> bool, x: T, s: seq<T>)
    requires StrictTotalOrder(less) && SortedBy(key, less, s)
    ensures SortedBy(key, less, Insert(key, less, x, s))
  {
    var r := Insert(key, less, x, s);
    if s == [] || !less(key(s[0]), key(x)) {
      assert r == [x] + s;
      forall i, j | 0 <= i < j < |r| ensures !less(key(r[j]), key(r[i])) {
        if i > 0 {
          assert r[i] == s[i - 1] && r[j] == s[j - 1];
        } else if j > 1 {
          assert !less(key(s[j - 1]), key(s[0]));
        }
      }
    } else {
      var rest := Insert(key, less, x, s[1..]);
      InsertSorted(key, less, x, s[1..]);
      InsertPermutes(key, less, x, s[1..]);
      forall i, j | 0 <= i < j < |r| ensures !less(key(r[j]), key(r[i])) {
        assert r[j] == rest[j - 1];
        if i > 0 {
          assert r[i] == rest[i - 1];
        } else {
          assert rest[j - 1] in multiset(rest);
          assert rest[j - 1] == x || rest[j - 1] in s[1..];
        }
      }
    }
  }

  lemma {:induction false} StableSortPermutes<T, K>(key: T -> K, less: (K, K) -> bool, s: seq<T>)
    ensures multiset(StableSort(key, less, s)) == multiset(s)
  {
    if s != [] {
      StableSortPermutes(key, less, s[1..]);
      InsertPermutes(key, less, s[0], StableSort(key, less, s[1..]));
      assert s == [s[0]] + s[1..];
    }
  }

  lemma {:induction false} StableSortWithKey<T, K>(key: T -> K, less: (K, K) -> bool, s: seq<T>, k: K)
    requires forall a :: !less(a, a)
    ensures WithKey(key, k, StableSort(key, less, s)) == WithKey(key, k, s)
  {
    if s != [] {
      var t := StableSort(key, less, s[1..]);
      StableSortWithKey(key, less, s[1..], k);
      InsertWithKey(key, less, s[0], t, k);
      assert WithKey(key, k, [s[0]]) == if key(s[0]) == k then [s[0]] else [];
    }
  }

  lemma {:induction false} StableSortSorted<T, K(!new)>(key: T -> K, less: (K, K) -> bool, s: seq<T>)
    requires StrictTotalOrder(less)
    ensures SortedBy(key, less, StableSort(key, less, s))
  {
    if s != [] {
      StableSortSorted(key, less, s[1..]);
      InsertSorted(key, less, s[0], StableSort(key, less, s[1..]));
    }
  }

  /** A stable sort always exists. */
  lemma StableSortMeetsSpec<T, K(!new)>(key: T -> K, less: (K, K) -> bool, s: seq<T>)
    requires StrictTotalOrder(less)
    ensures IsStableSort(key, less, s, StableSort(key, less, s))
  {
    StableSortPermutes(key, less, s);
    StableSortSorted(key, less, s);
    forall k ensures WithKey(key, k, StableSort(key, less, s)) == WithKey(key, k, s) {
      StableSortWithKey(key, less, s, k);
    }
  }

  lemma {:induction false} WithKeyMembers<T, K>(key: T -> K, k: K, s: seq<T>)
    ensures forall x :: x in WithKey(key, k, s) <==> x in s && key(x) == k
    ensures forall i :: 0 <= i < |s| && key(s[i]) == k ==> WithKey(key, k, s) != []
  {
    if s != [] {
      WithKeyMembers(key, k, s[1..]);
      assert s == [s[0]] + s[1..];
      forall i | 0 <= i < |s| && key(s[i]) == k ensures WithKey(key, k, s) != [] {
        if i > 0 {
          assert s[1..][i - 1] == s[i];
        }
      }
    }
  }

  lemma WithKeyHead<T, K>(key: T -> K, s: seq<T>)
    requires s != []
    ensures WithKey(key, key(s[0]), s) != [] && WithKey(key, key(s[0]), s)[0] == s[0]
  {
  }

  /** Two sorted lists whose heads occur in each other have heads with the same key. */
  lemma HeadKeysAgree<T, K(!new)>(key: T -> K, less: (K, K) -> bool, s: seq<T>, t: seq<T>, i: nat, j: nat)
    requires forall a, b :: less(a, b) || less(b, a) || a == b
    requires SortedBy(key, less, s) && SortedBy(key, less, t)
    requires j < |s| && i < |t| && key(t[i]) == key(s[0]) && key(s[j]) == key(t[0])
    ensures key(s[0]) == key(t[0])
  {
  }

  lemma SameHead<T, K(!new)>(key: T -> K, less: (K, K) -> bool, s: seq<T>, t: seq<T>)
    requires StrictTotalOrder(less) && SortedBy(key, less, s) && SortedBy(key, less, t)
    requires s != [] && t != [] && forall k :: WithKey(key, k, s) == WithKey(key, k, t)
    ensures s[0] == t[0]
  {
    var ks, kt := key(s[0]), key(t[0]);
    WithKeyMembers(key, ks, s);
    WithKeyMembers(key, ks, t);
    WithKeyMembers(key, kt, s);
    WithKeyMembers(key, kt, t);
    assert s[0] in WithKey(key, ks, t) && t[0] in WithKey(key, kt, s);
    var i :| 0 <= i < |t| && t[i] == s[0];
    var j :| 0 <= j < |s| && s[j] == t[0];
    HeadKeysAgree(key, less, s, t, i, j);
    assert s[0] == WithKey(key, ks, s)[0] && t[0] == WithKey(key, ks, t)[0];
  }

  lemma TailWithKey<T, K>(key: T -> K, k: K, s: seq<T>)
    requires s != []
    ensures var n := if key(s[0]) == k then 1 else 0;
      n <= |WithKey(key, k, s)| && WithKey(key, k, s)[n..] == WithKey(key, k, s[1..])
  {
  }

  /** Two sorted lists that agree key by key are the same list. */
  lemma {:induction false} SortedByKeysUnique<T, K(!new)>(key: T -> K, less: (K, K) -> bool, s: seq<T>, t: seq<T>)
    requires StrictTotalOrder(less) && SortedBy(key, less, s) && SortedBy(key, less, t)
    requires forall k :: WithKey(key, k, s) == WithKey(key, k, t)
    ensures s == t
  {
    if s == [] {
      if t != [] {
        WithKeyHead(key, t);
      }
    } else if t == [] {
      WithKeyHead(key, s);
    } else {
      SameHead(key, less, s, t);
      forall k ensures WithKey(key, k, s[1..]) == WithKey(key, k, t[1..]) {
        assert WithKey(key, k, s) == WithKey(key, k, t);
        TailWithKey(key, k, s);
        TailWithKey(key, k, t);
      }
      SortedByKeysUnique(key, less, s[1..], t[1..]);
      assert s == [s[0]] + s[1..] && t == [t[0]] + t[1..];
    }
  }

  lemma {:induction false} WithKeyCounts<T, K>(key: T -> K, s: seq<T>, x: T)
    requires forall a, b :: key(a) == key(b) ==> a == b
    ensures WithKey(key, key(x), s) == Copies(x, multiset(s)[x])
  {
    if s != [] {
      WithKeyCounts(key, s[1..], x);
      assert s == [s[0]] + s[1..];
      assert multiset(s)[x] == multiset(s[1..])[x] + if s[0] == x then 1 else 0;
    }
  }

  function Copies<T>(x: T, n: nat): seq<T> {
    if n == 0 then [] else [x] + Copies(x, n - 1)
  }

  lemma {:induction false} NoneWithKey<T, K>(key: T -> K, k: K, s: seq<T>)
    requires forall x :: x in multiset(s) ==> key(x) != k
    ensures WithKey(key, k, s) == []
  {
    if s != [] {
      assert s[0] in multiset(s);
      assert forall x :: x in multiset(s[1..]) ==> x in multiset(s);
      NoneWithKey(key, k, s[1..]);
    }
  }

  /** Two sorted arrangements of the same values are the same list, repeated values or not. */
  lemma SortedPermutationUnique<T(!new), K(!new)>(key: T -> K, less: (K, K) -> bool, s: seq<T>, t: seq<T>)
    requires StrictTotalOrder(less) && forall a, b :: key(a) == key(b) ==> a == b
    requires SortedBy(key, less, s) && SortedBy(key, less, t)
    requires multiset(s) == multiset(t)
    ensures s == t
  {
    forall k ensures WithKey(key, k, s) == WithKey(key, k, t) {
      WithKeyMembers(key, k, s);
      WithKeyMembers(key, k, t);
      if x :| x in multiset(s) && key(x) == k {
        WithKeyCounts(key, s, x);
        WithKeyCounts(key, t, x);
      } else {
        NoneWithKey(key, k, s);
        NoneWithKey(key, k, t);
      }
    }
    SortedByKeysUnique(key, less, s, t);
  }

  // ----- Multisets through a map -----

  lemma MapAppendOne<A, B>(f: A -> B, s: seq<A>, x: A)
    ensures Map(f, s + [x]) == Map(f, s) + [f(x)]
  {
  }

  /** `s` without its element at `i`. */
  function Without<A>(s: seq<A>, i: nat): seq<A>
    requires i < |s|
  {
    s[..i] + s[i + 1..]
  }

  lemma WithoutPermutes<A>(s: seq<A>, i: nat)
    requires i < |s|
    ensures multiset(s) == multiset(Without(s, i)) + multiset{s[i]}
  {
    assert s == s[..i] + [s[i]] + s[i + 1..];
  }

  lemma MapWithout<A, B>(f: A -> B, s: seq<A>, i: nat)
    requires i < |s|
    ensures multiset(Map(f, s)) == multiset(Map(f, Without(s, i))) + multiset{f(s[i])}
  {
    assert Without(Map(f, s), i) == Map(f, Without(s, i));
    WithoutPermutes(Map(f, s), i);
  }

  lemma CancelOne<A>(m: multiset<A>, n: multiset<A>, x: A)
    requires m + multiset{x} == n + multiset{x}
    ensures m == n
  {
    assert m == (m + multiset{x}) - multiset{x};
    assert n == (n + multiset{x}) - multiset{x};
  }

  lemma FindIn<A>(s: seq<A>, x: A) returns (i: nat)
    requires x in multiset(s)
    ensures i < |s| && s[i] == x
  {
    i :| 0 <= i < |s| && s[i] == x;
  }

  /** Rearranging the arguments rearranges the images. */
  lemma {:induction false} MapKeepsPermutation<A, B>(f: A -> B, s: seq<A>, t: seq<A>)
    requires multiset(s) == multiset(t)
    ensures multiset(Map(f, s)) == multiset(Map(f, t))
  {
    if s == [] {
      assert |multiset(t)| == 0;
    } else {
      assert s[0] in multiset(s);
      var i := FindIn(t, s[0]);
      WithoutPermutes(s, 0);
      WithoutPermutes(t, i);
      CancelOne(multiset(Without(s, 0)), multiset(Without(t, i)), s[0]);
      MapKeepsPermutation(f, Without(s, 0), Without(t, i));
      MapWithout(f, s, 0);
      MapWithout(f, t, i);
    }
  }

  lemma AppendedLater<A>(whole: seq<A>, rest: seq<A>, part: seq<A>, last: seq<A>)
    requires multiset(whole) == multiset(rest) + multiset(part)
    ensures multiset(whole + last) == multiset(rest + last) + multiset(part)
  {
  }

  lemma WithoutAt<A>(s: seq<A>, i: nat, j: nat)
    requires i < |s| && j < |s| - 1
    ensures |Without(s, i)| == |s| - 1
    ensures Without(s, i)[j] == if j < i then s[j] else s[j + 1]
  {
  }

  lemma {:induction false} FlatMapWithout<A, B>(f: A -> seq<B>, s: seq<A>, i: nat, k: nat)
    requires i < k <= |s|
    ensures |Without(s, i)| == |s| - 1
    ensures multiset(FlatMap(f, s, k)) == multiset(FlatMap(f, Without(s, i), k - 1)) + multiset(f(s[i]))
  {
    if i == k - 1 {
      forall j | 0 <= j < i ensures f(s[j]) == f(Without(s, i)[j]) {
        WithoutAt(s, i, j);
      }
      FlatMapSame(f, s, Without(s, i), i);
    } else {
      FlatMapWithout(f, s, i, k - 1);
      WithoutAt(s, i, k - 2);
      AppendedLater(FlatMap(f, s, k - 1), FlatMap(f, Without(s, i), k - 2), f(s[i]), f(s[k - 1]));
    }
  }

  /** Rearranging the arguments rearranges what they yield. */
  lemma {:induction false} FlatMapPermutes<A, B>(f: A -> seq<B>, s: seq<A>, t: seq<A>)
    requires multiset(s) == multiset(t)
    ensures multiset(FlatMap(f, s, |s|)) == multiset(FlatMap(f, t, |t|))
  {
    if s == [] {
      assert |multiset(t)| == 0;
    } else {
      assert s[0] in multiset(s);
      var i := FindIn(t, s[0]);
      WithoutPermutes(s, 0);
      WithoutPermutes(t, i);
      CancelOne(multiset(Without(s, 0)), multiset(Without(t, i)), s[0]);
      FlatMapPermutes(f, Without(s, 0), Without(t, i));
      FlatMapWithout(f, s, 0, |s|);
      FlatMapWithout(f, t, i, |t|);
    }
  }

  ghost predicate InjectiveOn<A, B>(f: A -> B, domain: set<A>) {
    forall x, y :: x in domain && y in domain && f(x) == f(y) ==> x == y
  }

  lemma {:induction false} InjectiveCount<A, B>(f: A -> B, domain: set<A>, s: seq<A>, x: A)
    requires InjectiveOn(f, domain) && x in domain && (forall y :: y in s ==> y in domain)
    ensures multiset(Map(f, s))[f(x)] == multiset(s)[x]
  {
    if s != [] {
      assert s[0] in domain;
      InjectiveCount(f, domain, Without(s, 0), x);
      WithoutPermutes(s, 0);
      MapWithout(f, s, 0);
    }
  }

  /** An injective map loses nothing about a multiset. */
  lemma {:induction false} InjectiveMapReflectsPermutation<A, B>(f: A -> B, domain: set<A>, s: seq<A>, t: seq<A>)
    requires InjectiveOn(f, domain) && (forall y :: y in s || y in t ==> y in domain)
    requires multiset(Map(f, s)) == multiset(Map(f, t))
    ensures multiset(s) == multiset(t)
  {
    forall x ensures multiset(s)[x] == multiset(t)[x] {
      if x in domain {
        InjectiveCount(f, domain, s, x);
        InjectiveCount(f, domain, t, x);
      } else {
        assert x !in s && x !in t;
      }
    }
  }
}
