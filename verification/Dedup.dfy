/** Keeping the first element of each key in a ranked list, up to a limit. */
module Dedup {
  import opened Sorting

  ghost function Keys<T>(key: T -> string, cs: seq<T>): set<string> {
    set c | c in cs :: key(c)
  }

  lemma KeysOneMore<T>(key: T -> string, cs: seq<T>, c: T)
    ensures Keys(key, cs + [c]) == Keys(key, cs) + {key(c)}
  {
    assert forall x :: x in cs + [c] <==> x in cs || x == c;
  }

  /** The keys of the first `k` elements. */
  function KeysTo<T>(key: T -> string, cs: seq<T>, k: nat): set<string>
    requires k <= |cs|
  {
    if k == 0 then {} else KeysTo(key, cs, k - 1) + {key(cs[k - 1])}
  }

  /** Of the first `k` elements, the first of each key, in order. */
  function FirstTo<T>(key: T -> string, cs: seq<T>, k: nat): (r: seq<T>)
    requires k <= |cs|
    ensures |r| <= k
  {
    if k == 0 then []
    else if key(cs[k - 1]) in KeysTo(key, cs, k - 1) then FirstTo(key, cs, k - 1)
    else FirstTo(key, cs, k - 1) + [cs[k - 1]]
  }

  function FirstOfEach<T>(key: T -> string, cs: seq<T>): seq<T> {
    FirstTo(key, cs, |cs|)
  }

  function Take<T>(cs: seq<T>, limit: nat): seq<T> {
    if |cs| <= limit then cs else cs[..limit]
  }

  lemma {:induction false} FirstToGrows<T>(key: T -> string, cs: seq<T>, k: nat, m: nat)
    requires k <= m <= |cs|
    ensures FirstTo(key, cs, k) <= FirstTo(key, cs, m)
  {
    if k < m {
      FirstToGrows(key, cs, k, m - 1);
    }
  }

  /** A list already full at `k` is what the whole input gives. */
  lemma FullEarly<T>(key: T -> string, cs: seq<T>, k: nat, limit: nat)
    requires k <= |cs| && |FirstTo(key, cs, k)| == limit
    ensures Take(FirstOfEach(key, cs), limit) == FirstTo(key, cs, k)
  {
    FirstToGrows(key, cs, k, |cs|);
  }

  /** One round of the loop, for a key met before and for a new one. */
  lemma OneMore<T>(key: T -> string, cs: seq<T>, k: nat)
    requires k < |cs|
    ensures key(cs[k]) in KeysTo(key, cs, k) ==>
      FirstTo(key, cs, k + 1) == FirstTo(key, cs, k) && KeysTo(key, cs, k + 1) == KeysTo(key, cs, k)
    ensures key(cs[k]) !in KeysTo(key, cs, k) ==>
      && FirstTo(key, cs, k + 1) == FirstTo(key, cs, k) + [cs[k]]
      && KeysTo(key, cs, k + 1) == KeysTo(key, cs, k) + {key(cs[k])}
  {
    assert key(cs[k]) in KeysTo(key, cs, k) ==> KeysTo(key, cs, k) + {key(cs[k])} == KeysTo(key, cs, k);
  }

  /** The loop: a set of keys seen, and a stop as soon as the list is full. */
  method DedupAndCut<T>(key: T -> string, sorted: seq<T>, limit: nat) returns (final: seq<T>)
    requires limit > 0
    ensures final == Take(FirstOfEach(key, sorted), limit)
  {
    var contentSeen: set<string> := {};
    final := [];
    for k := 0 to |sorted|
      invariant final == FirstTo(key, sorted, k) && |final| < limit
      invariant contentSeen == KeysTo(key, sorted, k)
    {
      OneMore(key, sorted, k);
      if key(sorted[k]) in contentSeen {
        continue;
      }
      contentSeen := contentSeen + {key(sorted[k])};
      final := final + [sorted[k]];
      if |final| >= limit {
        FullEarly(key, sorted, k + 1, limit);
        return;
      }
    }
  }

  // ----- What the list is -----

  ghost predicate DistinctKeys<T>(key: T -> string, cs: seq<T>) {
    forall i, j :: 0 <= i < j < |cs| ==> key(cs[i]) != key(cs[j])
  }

  /** What a caller may rely on about a list of results, whatever computed it. */
  ghost predicate IsTopOf<T, R>(key: T -> string, rank: T -> R, less: (R, R) -> bool, cs: seq<T>, limit: nat,
                                final: seq<T>) {
    && |final| <= limit && (forall c :: c in final ==> c in cs)
    && SortedBy(rank, less, final) && DistinctKeys(key, final)
    // each key is represented by its best element
    && (forall c, i :: c in cs && 0 <= i < |final| && key(c) == key(final[i]) ==> !less(rank(c), rank(final[i])))
    // an element whose key is left out is no better than anything that is in
    && (forall c, i :: c in cs && 0 <= i < |final| && key(c) !in Keys(key, final) ==> !less(rank(c), rank(final[i])))
    // and keys are left out only because the list is full
    && (|final| < limit ==> Keys(key, final) == Keys(key, cs))
  }

  lemma {:induction false} KeysToMembers<T>(key: T -> string, cs: seq<T>, k: nat, q: nat)
    requires q < k <= |cs|
    ensures key(cs[q]) in KeysTo(key, cs, k)
  {
    if q < k - 1 {
      KeysToMembers(key, cs, k - 1, q);
    }
  }

  lemma {:induction false} KeysToAll<T>(key: T -> string, cs: seq<T>, k: nat)
    requires k <= |cs|
    ensures Keys(key, cs[..k]) == KeysTo(key, cs, k)
  {
    if k > 0 {
      KeysToAll(key, cs, k - 1);
      KeysOneMore(key, cs[..k - 1], cs[k - 1]);
      assert cs[..k] == cs[..k - 1] + [cs[k - 1]];
    }
  }

  lemma {:induction false} FirstToKeys<T>(key: T -> string, cs: seq<T>, k: nat)
    requires k <= |cs|
    ensures Keys(key, FirstTo(key, cs, k)) == KeysTo(key, cs, k)
  {
    if k > 0 {
      FirstToKeys(key, cs, k - 1);
      KeysOneMore(key, FirstTo(key, cs, k - 1), cs[k - 1]);
    }
  }

  lemma FirstOfEachKeys<T>(key: T -> string, cs: seq<T>)
    ensures Keys(key, FirstOfEach(key, cs)) == Keys(key, cs)
  {
    FirstToKeys(key, cs, |cs|);
    KeysToAll(key, cs, |cs|);
    assert cs[..|cs|] == cs;
  }

  /** Where an element of the deduplicated list comes from. */
  lemma {:induction false} FirstToAt<T>(key: T -> string, cs: seq<T>, k: nat, i: nat) returns (p: nat)
    requires k <= |cs| && i < |FirstTo(key, cs, k)|
    ensures p < k && cs[p] == FirstTo(key, cs, k)[i]
    ensures FirstTo(key, cs, p) == FirstTo(key, cs, k)[..i]
  {
    var before := FirstTo(key, cs, k - 1);
    if i < |before| {
      p := FirstToAt(key, cs, k - 1, i);
      assert FirstTo(key, cs, k)[..i] == before[..i];
    } else {
      p := k - 1;
      assert FirstTo(key, cs, k)[..i] == before;
    }
  }

  /** An element whose key has no earlier entry cannot be preferred to an entry. */
  lemma EntryIsBest<T, R(!new)>(key: T -> string, rank: T -> R, less: (R, R) -> bool, sorted: seq<T>, i: nat, c: T)
    requires StrictTotalOrder(less) && SortedBy(rank, less, sorted)
    requires i < |FirstOfEach(key, sorted)| && c in sorted
    requires key(c) !in Keys(key, FirstOfEach(key, sorted)[..i])
    ensures !less(rank(c), rank(FirstOfEach(key, sorted)[i]))
  {
    var p := FirstToAt(key, sorted, |sorted|, i);
    FirstToKeys(key, sorted, p);
    var q :| 0 <= q < |sorted| && sorted[q] == c;
    if q < p {
      KeysToMembers(key, sorted, p, q);
    }
  }

  lemma {:induction false} EntriesAreDistinct<T>(key: T -> string, cs: seq<T>, k: nat)
    requires k <= |cs|
    ensures DistinctKeys(key, FirstTo(key, cs, k))
  {
    if k > 0 {
      EntriesAreDistinct(key, cs, k - 1);
      FirstToKeys(key, cs, k - 1);
      var before := FirstTo(key, cs, k - 1);
      forall i | 0 <= i < |before| ensures key(before[i]) in KeysTo(key, cs, k - 1) {
        assert before[i] in before;
      }
    }
  }

  lemma {:induction false} EntriesComeFrom<T>(key: T -> string, cs: seq<T>, k: nat)
    requires k <= |cs|
    ensures forall c :: c in FirstTo(key, cs, k) ==> c in cs
  {
    if k > 0 {
      EntriesComeFrom(key, cs, k - 1);
    }
  }

  /** Deduplicating a ranked list from the front gives its top, one element per key. */
  lemma TopOfSorted<T, R(!new)>(key: T -> string, rank: T -> R, less: (R, R) -> bool, sorted: seq<T>, limit: nat)
    requires StrictTotalOrder(less) && SortedBy(rank, less, sorted)
    ensures IsTopOf(key, rank, less, sorted, limit, Take(FirstOfEach(key, sorted), limit))
  {
    var r := FirstOfEach(key, sorted);
    var final := Take(r, limit);
    EntriesComeFrom(key, sorted, |sorted|);
    EntriesAreDistinct(key, sorted, |sorted|);
    FirstOfEachKeys(key, sorted);
    forall c, i | c in sorted && 0 <= i < |final| && key(c) !in Keys(key, r[..i])
      ensures !less(rank(c), rank(final[i]))
    {
      EntryIsBest(key, rank, less, sorted, i, c);
    }
    forall i, c | 0 <= i < |final| && c in r[..i] ensures c in final && key(c) != key(final[i]) {
      var j :| 0 <= j < i && r[j] == c;
      assert final[j] == c;
    }
    forall i, j | 0 <= i < j < |final| ensures !less(rank(final[j]), rank(final[i])) {
      EarlierKeys(key, r, i, j);
    }
  }

  lemma EarlierKeys<T>(key: T -> string, r: seq<T>, i: nat, j: nat)
    requires DistinctKeys(key, r) && i <= j < |r|
    ensures key(r[j]) !in Keys(key, r[..i])
  {
  }

  /** Being the top is a matter of the elements, not of their order. */
  lemma TopOfPermutation<T, R>(key: T -> string, rank: T -> R, less: (R, R) -> bool, cs: seq<T>, cs': seq<T>,
                               limit: nat, final: seq<T>)
    requires multiset(cs) == multiset(cs') && IsTopOf(key, rank, less, cs, limit, final)
    ensures IsTopOf(key, rank, less, cs', limit, final)
  {
    forall c ensures c in cs <==> c in cs' {
      assert c in multiset(cs) <==> c in multiset(cs');
    }
    assert Keys(key, cs) == Keys(key, cs');
  }

  // ----- There is only one such list -----

  /** No two of the elements have the same rank. */
  ghost predicate RanksDiffer<T, R>(rank: T -> R, cs: seq<T>) {
    forall c, d :: c in cs && d in cs && rank(c) == rank(d) ==> c == d
  }

  /** Where two tops first differ, neither element can come after the other's. */
  lemma TopNotAfter<T, R(!new)>(key: T -> string, rank: T -> R, less: (R, R) -> bool, cs: seq<T>, limit: nat,
                                f: seq<T>, g: seq<T>, i: nat)
    requires StrictTotalOrder(less) && RanksDiffer(rank, cs)
    requires IsTopOf(key, rank, less, cs, limit, f) && IsTopOf(key, rank, less, cs, limit, g)
    requires i < |f| && i < |g| && f[..i] == g[..i]
    ensures !less(rank(f[i]), rank(g[i]))
  {
    var c := f[i];
    assert c in f && c in cs;
    if key(c) in Keys(key, g) {
      var d :| d in g && key(d) == key(c);
      var j :| 0 <= j < |g| && g[j] == d;
      assert d in cs && !less(rank(d), rank(f[i])) && !less(rank(c), rank(g[j]));
      assert c == d;
    }
  }

  lemma {:induction false} TopsAgreeTo<T, R(!new)>(key: T -> string, rank: T -> R, less: (R, R) -> bool, cs: seq<T>,
                                                   limit: nat, f: seq<T>, g: seq<T>, i: nat)
    requires StrictTotalOrder(less) && RanksDiffer(rank, cs)
    requires IsTopOf(key, rank, less, cs, limit, f) && IsTopOf(key, rank, less, cs, limit, g)
    requires i <= |f| && i <= |g|
    ensures f[..i] == g[..i]
  {
    if i > 0 {
      TopsAgreeTo(key, rank, less, cs, limit, f, g, i - 1);
      TopNotAfter(key, rank, less, cs, limit, f, g, i - 1);
      TopNotAfter(key, rank, less, cs, limit, g, f, i - 1);
      assert f[i - 1] in f && g[i - 1] in g;
      assert f[..i] == f[..i - 1] + [f[i - 1]] && g[..i] == g[..i - 1] + [g[i - 1]];
    }
  }

  lemma LaterKeyIsNew<T>(key: T -> string, cs: seq<T>, g: seq<T>, n: nat)
    requires DistinctKeys(key, g) && (forall c :: c in g ==> c in cs) && n < |g|
    ensures key(g[n]) in Keys(key, cs) && key(g[n]) !in Keys(key, g[..n])
  {
    assert g[n] in g;
    EarlierKeys(key, g, n, n);
  }

  lemma TopNotShorter<T, R(!new)>(key: T -> string, rank: T -> R, less: (R, R) -> bool, cs: seq<T>, limit: nat,
                                  f: seq<T>, g: seq<T>)
    requires IsTopOf(key, rank, less, cs, limit, f) && IsTopOf(key, rank, less, cs, limit, g)
    requires |f| <= |g| && f == g[..|f|]
    ensures f == g
  {
    if |f| < |g| {
      LaterKeyIsNew(key, cs, g, |f|);
    } else {
      assert g[..|f|] == g;
    }
  }

  /** When ranks differ, only one list is the top. */
  lemma TopIsUnique<T, R(!new)>(key: T -> string, rank: T -> R, less: (R, R) -> bool, cs: seq<T>, limit: nat,
                                f: seq<T>, g: seq<T>)
    requires StrictTotalOrder(less) && RanksDiffer(rank, cs)
    requires IsTopOf(key, rank, less, cs, limit, f) && IsTopOf(key, rank, less, cs, limit, g)
    ensures f == g
  {
    if |f| <= |g| {
      TopsAgreeTo(key, rank, less, cs, limit, f, g, |f|);
      assert f[..|f|] == f;
      TopNotShorter(key, rank, less, cs, limit, f, g);
    } else {
      TopsAgreeTo(key, rank, less, cs, limit, f, g, |g|);
      assert g[..|g|] == g;
      TopNotShorter(key, rank, less, cs, limit, g, f);
    }
  }
}
