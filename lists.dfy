/**
 * The JavaScript array and Map primitives the engine is built from:
 * `Array.prototype.findIndex` (first match), `slice(0, n)`, the stable
 * `Array.prototype.sort` with a descending numeric comparator, a `Map`
 * of counters kept in insertion order, and "push unless already included".
 */
module Lists {

  /** `rules.findIndex(holds)`, with `|rules|` standing for "none". */
  function FirstIndex<R>(rules: seq<R>, holds: R -> bool): (k: nat)
    ensures k <= |rules|
    ensures forall i :: 0 <= i < k ==> !holds(rules[i])
    ensures k < |rules| ==> holds(rules[k])
  {
    if rules == [] then 0
    else if holds(rules[0]) then 0
    else 1 + FirstIndex(rules[1..], holds)
  }

  /** The first index is `k` when rule `k` holds and no earlier one does. */
  lemma FirstIndexAt<R>(rules: seq<R>, holds: R -> bool, k: nat)
    requires k < |rules| && holds(rules[k])
    requires forall i :: 0 <= i < k ==> !holds(rules[i])
    ensures FirstIndex(rules, holds) == k
  {
    var f := FirstIndex(rules, holds);
    assert !(f < k);
  }

  /** `s.slice(0, n)`. */
  function Take<T>(s: seq<T>, n: nat): (r: seq<T>)
    ensures |r| <= n && |r| <= |s|
    ensures r == s[..|r|]
    ensures |s| > n ==> |r| == n
  {
    if |s| <= n then s else s[..n]
  }

  // ---------------------------------------------------------------------------
  // Stable descending sort

  /** The elements of `s` whose key is `k`, in their order in `s`. */
  function WithKey<T>(s: seq<T>, key: T -> int, k: int): seq<T>
    decreases |s|
  {
    if s == [] then [] else (if key(s[0]) == k then [s[0]] else []) + WithKey(s[1..], key, k)
  }

  lemma {:induction false} WithKeyConcat<T>(a: seq<T>, b: seq<T>, key: T -> int, k: int)
    ensures WithKey(a + b, key, k) == WithKey(a, key, k) + WithKey(b, key, k)
    decreases |a|
  {
    if a != [] {
      assert (a + b)[1..] == a[1..] + b;
      WithKeyConcat(a[1..], b, key, k);
    } else {
      assert a + b == b;
    }
  }

  lemma {:induction false} WithKeyNone<T>(s: seq<T>, key: T -> int, k: int)
    requires forall i :: 0 <= i < |s| ==> key(s[i]) < k
    ensures WithKey(s, key, k) == []
    decreases |s|
  {
    if s != [] {
      WithKeyNone(s[1..], key, k);
    }
  }

  ghost predicate SortedDesc<T>(s: seq<T>, key: T -> int) {
    forall i, j :: 0 <= i < j < |s| ==> key(s[i]) >= key(s[j])
  }

  /** Places `x` after every element whose key is at least its own. */
  function Insert<T>(x: T, s: seq<T>, key: T -> int): (r: seq<T>)
    ensures |r| == |s| + 1
    decreases |s|
  {
    if s == [] then [x]
    else if key(s[0]) >= key(x) then [s[0]] + Insert(x, s[1..], key)
    else [x] + s
  }

  /**
   * `s.sort((a, b) => key(b) - key(a))`: the result of ECMAScript's stable
   * sort with this comparator, computed as an insertion sort.
   */
  function SortDesc<T>(s: seq<T>, key: T -> int): (r: seq<T>)
    ensures |r| == |s|
    decreases |s|
  {
    if s == [] then [] else Insert(s[|s| - 1], SortDesc(s[..|s| - 1], key), key)
  }

  lemma {:induction false} InsertMultiset<T>(x: T, s: seq<T>, key: T -> int)
    ensures multiset(Insert(x, s, key)) == multiset(s) + multiset{x}
    decreases |s|
  {
    if s != [] && key(s[0]) >= key(x) {
      InsertMultiset(x, s[1..], key);
      assert s == [s[0]] + s[1..];
    }
  }

  lemma {:induction false} InsertSorted<T>(x: T, s: seq<T>, key: T -> int)
    requires SortedDesc(s, key)
    ensures SortedDesc(Insert(x, s, key), key)
    decreases |s|
  {
    if s != [] && key(s[0]) >= key(x) {
      InsertSorted(x, s[1..], key);
      InsertMultiset(x, s[1..], key);
      var r := Insert(x, s[1..], key);
      forall j | 0 <= j < |r| ensures key(s[0]) >= key(r[j]) {
        assert r[j] in multiset(r);
        assert r[j] == x || r[j] in multiset(s[1..]);
      }
    }
  }

  lemma {:induction false} InsertWithKey<T>(x: T, s: seq<T>, key: T -> int, k: int)
    requires SortedDesc(s, key)
    ensures WithKey(Insert(x, s, key), key, k) == WithKey(s, key, k) + (if key(x) == k then [x] else [])
    decreases |s|
  {
    if s == [] {
    } else if key(s[0]) >= key(x) {
      InsertWithKey(x, s[1..], key, k);
      WithKeyConcat([s[0]], Insert(x, s[1..], key), key, k);
      WithKeyConcat([s[0]], s[1..], key, k);
      assert s == [s[0]] + s[1..];
    } else {
      WithKeyConcat([x], s, key, k);
      if key(x) == k {
        WithKeyNone(s, key, k);
      }
    }
  }

  /**
   * The sort is stable and descending: the result is ordered by key from
   * largest to smallest, holds the same elements, and elements with equal
   * keys keep their original relative order.
   */
  lemma {:induction false} SortDescSpec<T>(s: seq<T>, key: T -> int)
    ensures SortedDesc(SortDesc(s, key), key)
    ensures multiset(SortDesc(s, key)) == multiset(s)
    ensures forall k :: WithKey(SortDesc(s, key), key, k) == WithKey(s, key, k)
    decreases |s|
  {
    if s != [] {
      var p, x := s[..|s| - 1], s[|s| - 1];
      assert s == p + [x];
      SortDescSpec(p, key);
      InsertSorted(x, SortDesc(p, key), key);
      InsertMultiset(x, SortDesc(p, key), key);
      forall k ensures WithKey(SortDesc(s, key), key, k) == WithKey(s, key, k) {
        InsertWithKey(x, SortDesc(p, key), key, k);
        WithKeyConcat(p, [x], key, k);
      }
    }
  }

  /**
   * Taking the first `n` of the sorted list keeps the `n` largest: an element
   * left out means `n` elements were kept, each with a key at least its own.
   */
  lemma TopOfSorted<T>(s: seq<T>, key: T -> int, n: nat, x: T)
    requires x in s && x !in Take(SortDesc(s, key), n)
    ensures |Take(SortDesc(s, key), n)| == n
    ensures forall y :: y in Take(SortDesc(s, key), n) ==> key(y) >= key(x)
  {
    var r := SortDesc(s, key);
    SortDescSpec(s, key);
    assert x in multiset(r);
    var i :| 0 <= i < |r| && r[i] == x;
    assert i >= |Take(r, n)|;
    forall y | y in Take(r, n) ensures key(y) >= key(x) {
      var j :| 0 <= j < |Take(r, n)| && Take(r, n)[j] == y;
    }
  }

  /** Taking a prefix of a sorted list keeps it sorted. */
  lemma TakeSorted<T>(s: seq<T>, key: T -> int, n: nat)
    requires SortedDesc(s, key)
    ensures SortedDesc(Take(s, n), key)
  {
  }

  // ---------------------------------------------------------------------------
  // Insertion-ordered counters: a JavaScript `Map` from key to count

  function Keys<K, V>(t: seq<(K, V)>): (r: seq<K>)
    ensures |r| == |t| && forall i :: 0 <= i < |t| ==> r[i] == t[i].0
  {
    if t == [] then [] else [t[0].0] + Keys(t[1..])
  }

  /** `m.get(k) || 0`: the count of the first entry for `k`. */
  function Lookup<K(==)>(t: seq<(K, nat)>, k: K): nat
  {
    if t == [] then 0 else if t[0].0 == k then t[0].1 else Lookup(t[1..], k)
  }

  /** `m.set(k, (m.get(k) || 0) + 1)`: bumps an existing entry in place, or appends a new one. */
  function Bump<K(==)>(t: seq<(K, nat)>, k: K): (r: seq<(K, nat)>)
    ensures Keys(r) == if k in Keys(t) then Keys(t) else Keys(t) + [k]
  {
    if t == [] then [(k, 1)]
    else if t[0].0 == k then [(k, t[0].1 + 1)] + t[1..]
    else [t[0]] + Bump(t[1..], k)
  }

  /** Bumping `k` adds one to the count of `k` and leaves every other count alone. */
  lemma {:induction false} BumpLookup<K>(t: seq<(K, nat)>, k: K, j: K)
    ensures Lookup(Bump(t, k), j) == Lookup(t, j) + (if j == k then 1 else 0)
  {
    if t != [] && t[0].0 != k {
      BumpLookup(t[1..], k, j);
    }
  }

  /** The counters after bumping each key of `ks` in turn, starting from an empty map. */
  function Tally<K(==)>(ks: seq<K>): seq<(K, nat)>
  {
    if ks == [] then [] else Bump(Tally(ks[..|ks| - 1]), ks[|ks| - 1])
  }

  /** Tallying one more key bumps its counter. */
  lemma TallySnoc<K>(ks: seq<K>, k: K)
    ensures Tally(ks + [k]) == Bump(Tally(ks), k)
  {
    assert (ks + [k])[..|ks|] == ks;
  }

  /** How often `k` occurs in `ks`. */
  function Occurrences<K(==)>(ks: seq<K>, k: K): nat
  {
    if ks == [] then 0 else Occurrences(ks[..|ks| - 1], k) + (if ks[|ks| - 1] == k then 1 else 0)
  }

  /** `s` with every repeat of an earlier element left out (push unless `includes`). */
  function Dedup<K(==)>(s: seq<K>): seq<K>
  {
    if s == [] then []
    else
      var d := Dedup(s[..|s| - 1]);
      if s[|s| - 1] in d then d else d + [s[|s| - 1]]
  }

  ghost predicate NoDuplicates<K>(s: seq<K>) {
    forall i, j :: 0 <= i < j < |s| ==> s[i] != s[j]
  }

  /** Deduplication keeps exactly the elements of `s`, each once, in order of first appearance. */
  lemma {:induction false} DedupSpec<K>(s: seq<K>)
    ensures NoDuplicates(Dedup(s))
    ensures forall x :: x in Dedup(s) <==> x in s
  {
    if s != [] {
      DedupSpec(s[..|s| - 1]);
      assert forall x :: x in s <==> x in s[..|s| - 1] || x == s[|s| - 1];
    }
  }

  /** Deduplicating an extended list extends the deduplicated list by the newcomers only. */
  lemma {:induction false} DedupConcat<K>(a: seq<K>, b: seq<K>)
    ensures Dedup(a) <= Dedup(a + b)
    decreases |b|
  {
    if b != [] {
      var ab := a + b;
      assert ab[..|ab| - 1] == a + b[..|b| - 1];
      DedupConcat(a, b[..|b| - 1]);
    } else {
      assert a + b == a;
    }
  }

  lemma OccurrencesAbsent<K>(ks: seq<K>, k: K)
    requires k !in ks
    ensures Occurrences(ks, k) == 0
  {
    if ks != [] {
      OccurrencesAbsent(ks[..|ks| - 1], k);
    }
  }

  /**
   * The tally has one entry per distinct key, in order of first appearance,
   * and each entry counts the occurrences of its key.
   */
  lemma {:induction false} TallySpec<K>(ks: seq<K>)
    ensures Keys(Tally(ks)) == Dedup(ks)
    ensures forall k :: Lookup(Tally(ks), k) == Occurrences(ks, k)
  {
    if ks != [] {
      TallySpec(ks[..|ks| - 1]);
      forall k ensures Lookup(Tally(ks), k) == Occurrences(ks, k) {
        BumpLookup(Tally(ks[..|ks| - 1]), ks[|ks| - 1], k);
      }
    }
  }

  /** A key's first entry is its only one when keys do not repeat. */
  lemma {:induction false} LookupUnique<K>(t: seq<(K, nat)>, i: nat)
    requires NoDuplicates(Keys(t)) && i < |t|
    ensures Lookup(t, t[i].0) == t[i].1
  {
    if i > 0 {
      assert Keys(t[1..]) == Keys(t)[1..];
      LookupUnique(t[1..], i - 1);
      assert Keys(t)[0] != Keys(t)[i];
    }
  }

  /** Every entry of the tally names a key of `ks` and holds its number of occurrences. */
  lemma TallyEntries<K>(ks: seq<K>)
    ensures forall e :: e in Tally(ks) ==> e.0 in ks && e.1 == Occurrences(ks, e.0)
  {
    var t := Tally(ks);
    TallySpec(ks);
    DedupSpec(ks);
    forall e | e in t ensures e.0 in ks && e.1 == Occurrences(ks, e.0) {
      var i :| 0 <= i < |t| && t[i] == e;
      assert Keys(t)[i] == e.0;
      LookupUnique(t, i);
    }
  }

  /** Sum of the counts of a list of entries. */
  function Total<T>(s: seq<T>, key: T -> int): int
  {
    if s == [] then 0 else key(s[0]) + Total(s[1..], key)
  }

  lemma {:induction false} TotalConcat<T>(a: seq<T>, b: seq<T>, key: T -> int)
    ensures Total(a + b, key) == Total(a, key) + Total(b, key)
    decreases |a|
  {
    if a != [] {
      assert (a + b)[1..] == a[1..] + b;
      TotalConcat(a[1..], b, key);
    } else {
      assert a + b == b;
    }
  }

  lemma {:induction false} TotalInsert<T>(x: T, s: seq<T>, key: T -> int)
    ensures Total(Insert(x, s, key), key) == Total(s, key) + key(x)
    decreases |s|
  {
    if s != [] && key(s[0]) >= key(x) {
      TotalInsert(x, s[1..], key);
    }
  }

  /** Sorting does not change the total. */
  lemma {:induction false} TotalSortDesc<T>(s: seq<T>, key: T -> int)
    ensures Total(SortDesc(s, key), key) == Total(s, key)
    decreases |s|
  {
    if s != [] {
      var p := s[..|s| - 1];
      TotalSortDesc(p, key);
      TotalInsert(s[|s| - 1], SortDesc(p, key), key);
      assert s == p + [s[|s| - 1]];
      TotalConcat(p, [s[|s| - 1]], key);
    }
  }

  function Count<K>(e: (K, nat)): int {
    e.1
  }

  /** Each bump adds one to the total, so the counts of a tally add up to the number of keys. */
  lemma {:induction false} TallyTotal<K>(ks: seq<K>)
    ensures Total(Tally(ks), Count) == |ks|
  {
    if ks != [] {
      TallyTotal(ks[..|ks| - 1]);
      BumpTotal(Tally(ks[..|ks| - 1]), ks[|ks| - 1]);
    }
  }

  lemma {:induction false} BumpTotal<K>(t: seq<(K, nat)>, k: K)
    ensures Total(Bump(t, k), Count) == Total(t, Count) + 1
  {
    if t != [] && t[0].0 != k {
      BumpTotal(t[1..], k);
    }
  }

  // ---------------------------------------------------------------------------
  // Counting

  /** `s.filter(p).length`. */
  function CountIf<T>(s: seq<T>, p: T -> bool): (n: nat)
    ensures n <= |s|
  {
    if s == [] then 0 else CountIf(s[..|s| - 1], p) + (if p(s[|s| - 1]) then 1 else 0)
  }

  /** Counting over one more element of `s`. */
  lemma CountIfSnoc<T>(s: seq<T>, i: nat, p: T -> bool)
    requires i < |s|
    ensures CountIf(s[..i + 1], p) == CountIf(s[..i], p) + (if p(s[i]) then 1 else 0)
  {
    assert s[..i + 1][..i] == s[..i];
  }

  /** `s.some(p)`. */
  predicate Any<T>(s: seq<T>, p: T -> bool) {
    exists i :: 0 <= i < |s| && p(s[i])
  }

  /** `s.some(p)` over one more element of `s`. */
  lemma AnySnoc<T>(s: seq<T>, i: nat, p: T -> bool)
    requires i < |s|
    ensures Any(s[..i + 1], p) <==> Any(s[..i], p) || p(s[i])
  {
    var q := s[..i + 1];
    if Any(q, p) {
      var k :| 0 <= k < |q| && p(q[k]);
      assert k < i ==> s[..i][k] == q[k];
    }
    if Any(s[..i], p) {
      var k :| 0 <= k < i && p(s[..i][k]);
      assert q[k] == s[..i][k];
    }
    assert q[i] == s[i];
  }

  lemma {:induction false} CountIfConcat<T>(a: seq<T>, b: seq<T>, p: T -> bool)
    ensures CountIf(a + b, p) == CountIf(a, p) + CountIf(b, p)
    decreases |b|
  {
    if b == [] {
      assert a + b == a;
    } else {
      CountIfConcat(a, b[..|b| - 1], p);
      assert (a + b)[..|a + b| - 1] == a + b[..|b| - 1];
    }
  }

  /** The count is zero exactly when no element satisfies `p`. */
  lemma {:induction false} CountIfZero<T>(s: seq<T>, p: T -> bool)
    ensures CountIf(s, p) == 0 <==> forall i :: 0 <= i < |s| ==> !p(s[i])
    decreases |s|
  {
    if s != [] {
      CountIfZero(s[..|s| - 1], p);
      if CountIf(s, p) == 0 {
        forall i | 0 <= i < |s| ensures !p(s[i]) {
          if i < |s| - 1 {
            assert s[..|s| - 1][i] == s[i];
          }
        }
      }
    }
  }

  /** `f` applied to each element of `s`, results concatenated in order. */
  function FlatMap<T, U>(s: seq<T>, f: T -> seq<U>): (r: seq<U>)
    ensures s == [] ==> r == []
  {
    if s == [] then [] else FlatMap(s[..|s| - 1], f) + f(s[|s| - 1])
  }

  lemma {:induction false} FlatMapConcat<T, U>(a: seq<T>, b: seq<T>, f: T -> seq<U>)
    ensures FlatMap(a + b, f) == FlatMap(a, f) + FlatMap(b, f)
    decreases |b|
  {
    if b == [] {
      assert a + b == a;
    } else {
      var ab := a + b;
      assert ab[..|ab| - 1] == a + b[..|b| - 1];
      assert ab[|ab| - 1] == b[|b| - 1];
      FlatMapConcat(a, b[..|b| - 1], f);
    }
  }

  /** An element mapped to nothing contributes nothing, wherever it stands. */
  lemma FlatMapSkip<T, U>(a: seq<T>, x: T, b: seq<T>, f: T -> seq<U>)
    requires f(x) == []
    ensures FlatMap(a + [x] + b, f) == FlatMap(a + b, f)
  {
    FlatMapConcat(a + [x], b, f);
    FlatMapConcat(a, b, f);
    assert (a + [x])[..|a|] == a;
  }

  /** `s.filter(p)`. */
  function Filter<T>(s: seq<T>, p: T -> bool): (r: seq<T>)
    ensures |r| <= |s|
    ensures forall x <- r :: x in s && p(x)
    ensures forall x <- s :: p(x) ==> x in r
  {
    if s == [] then []
    else Filter(s[..|s| - 1], p) + (if p(s[|s| - 1]) then [s[|s| - 1]] else [])
  }

  // ---------------------------------------------------------------------------
  // Ranked counters: a tally sorted by count, descending

  /** The counters of `ks` in first-seen order, stably sorted by count descending. */
  function Ranked<K(==)>(ks: seq<K>): seq<(K, nat)> {
    SortDesc(Tally(ks), Count)
  }

  lemma {:induction false} NoDuplicatesCount<T>(s: seq<T>, x: T)
    requires NoDuplicates(s)
    ensures multiset(s)[x] <= 1
  {
    if s != [] {
      var p := s[..|s| - 1];
      assert s == p + [s[|s| - 1]];
      NoDuplicatesCount(p, x);
      if x == s[|s| - 1] {
        assert x !in p;
      }
    }
  }

  /** A rearrangement of a list without repeats has none either. */
  lemma PermutationNoDuplicates<T>(s: seq<T>, r: seq<T>)
    requires multiset(r) == multiset(s) && NoDuplicates(s)
    ensures NoDuplicates(r)
  {
    forall i, j | 0 <= i < j < |r| ensures r[i] != r[j] {
      if r[i] == r[j] {
        assert r == r[..j] + r[j..];
        assert r[..j][i] == r[i];
        assert r[j..][0] == r[j];
        assert multiset(r)[r[i]] == multiset(r[..j])[r[i]] + multiset(r[j..])[r[i]];
        NoDuplicatesCount(s, r[i]);
        assert false;
      }
    }
  }

  /** Sorting a counter list keeps its keys distinct. */
  lemma SortDescKeysDistinct<K, V>(t: seq<(K, V)>, key: ((K, V)) -> int)
    requires NoDuplicates(Keys(t))
    ensures NoDuplicates(Keys(SortDesc(t, key)))
  {
    var r := SortDesc(t, key);
    assert multiset(r) == multiset(t) by {
      SortDescSpec(t, key);
    }
    forall i, j | 0 <= i < j < |t| ensures t[i] != t[j] {
      assert Keys(t)[i] != Keys(t)[j];
    }
    PermutationNoDuplicates(t, r);
    forall i, j | 0 <= i < j < |r| ensures Keys(r)[i] != Keys(r)[j] {
      assert r[i] in multiset(t) && r[j] in multiset(t);
      var p :| 0 <= p < |t| && t[p] == r[i];
      var q :| 0 <= q < |t| && t[q] == r[j];
      assert p != q;
      assert Keys(t)[p] != Keys(t)[q];
    }
  }

  /** Every ranked entry names a key of `ks` and carries its number of occurrences. */
  lemma RankedEntries<K>(ks: seq<K>)
    ensures forall i :: 0 <= i < |Ranked(ks)| ==>
              Ranked(ks)[i].0 in ks && Ranked(ks)[i].1 == Occurrences(ks, Ranked(ks)[i].0)
  {
    var t := Tally(ks);
    var r := Ranked(ks);
    SortDescSpec(t, Count);
    TallyEntries(ks);
    forall i | 0 <= i < |r| ensures r[i] in t {
      assert r[i] in multiset(r);
    }
  }

  /** Every key of `ks` has an entry in the ranking. */
  lemma RankedCovers<K>(ks: seq<K>, k: K)
    requires k in ks
    ensures exists i :: 0 <= i < |Ranked(ks)| && Ranked(ks)[i].0 == k
  {
    var t := Tally(ks);
    SortDescSpec(t, Count);
    TallySpec(ks);
    DedupSpec(ks);
    var p :| 0 <= p < |t| && Keys(t)[p] == k;
    assert t[p] in multiset(Ranked(ks));
    var i :| 0 <= i < |Ranked(ks)| && Ranked(ks)[i] == t[p];
  }

  /**
   * The ranking is descending by count, ties in order of first appearance,
   * with one entry per distinct key and counts adding up to `|ks|`.
   */
  lemma RankedSpec<K>(ks: seq<K>)
    ensures SortedDesc(Ranked(ks), Count)
    ensures forall c :: WithKey(Ranked(ks), Count, c) == WithKey(Tally(ks), Count, c)
    ensures Keys(Tally(ks)) == Dedup(ks)
    ensures NoDuplicates(Keys(Ranked(ks)))
    ensures Total(Ranked(ks), Count) == |ks|
  {
    SortDescSpec(Tally(ks), Count);
    TallySpec(ks);
    DedupSpec(ks);
    SortDescKeysDistinct(Tally(ks), Count);
    TotalSortDesc(Tally(ks), Count);
    TallyTotal(ks);
  }
}
