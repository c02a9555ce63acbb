/**
 * Java comparators over keys, key-sortedness of key/value records, and the
 * stable sort that `List.sort` performs on a list of records compared by key.
 */
module Ordering {

  /**
   * What `java.util.Comparator` promises: the sign of `compare(a, b)` is the
   * opposite of that of `compare(b, a)` (so any two keys are comparable) and
   * "at most" is transitive. Nothing is assumed of ties beyond this.
   */
  ghost predicate ValidComparator<K(!new)>(cmp: (K, K) -> int) {
    && (forall a, b :: cmp(a, b) <= 0 || cmp(b, a) <= 0)
    && (forall a, b, c {:trigger cmp(a, b), cmp(b, c), cmp(a, c)} :: cmp(a, b) <= 0 && cmp(b, c) <= 0 ==> cmp(a, c) <= 0)
  }

  /** Keys that compare as equal (ties). */
  predicate Tied<K>(cmp: (K, K) -> int, a: K, b: K) {
    cmp(a, b) <= 0 && cmp(b, a) <= 0
  }

  predicate SortedByKey<K, V>(s: seq<(K, V)>, cmp: (K, K) -> int) {
    forall i, j :: 0 <= i < j < |s| ==> cmp(s[i].0, s[j].0) <= 0
  }

  /** Every record's key is at least `k`. */
  predicate AllAtLeast<K, V>(s: seq<(K, V)>, k: K, cmp: (K, K) -> int) {
    forall i :: 0 <= i < |s| ==> cmp(k, s[i].0) <= 0
  }

  /**
   * Inserts `x` before the first record whose key is not below it, so that
   * `x` goes in front of the records it ties with.
   */
  function Insert<K, V>(x: (K, V), t: seq<(K, V)>, cmp: (K, K) -> int): (r: seq<(K, V)>)
    ensures multiset(r) == multiset(t) + multiset{x}
    ensures |r| == |t| + 1
  {
    if |t| == 0 then [x]
    else if cmp(x.0, t[0].0) <= 0 then [x] + t
    else
      assert t == [t[0]] + t[1..];
      [t[0]] + Insert(x, t[1..], cmp)
  }

  /**
   * `list.sort(Comparator.comparing(Pair::key, cmp))`: a stable sort by key.
   * Written as an insertion sort that inserts the head into the sorted tail.
   */
  function SortByKey<K, V>(s: seq<(K, V)>, cmp: (K, K) -> int): (r: seq<(K, V)>)
    ensures multiset(r) == multiset(s)
    ensures |r| == |s|
  {
    if |s| == 0 then []
    else
      assert s == [s[0]] + s[1..];
      Insert(s[0], SortByKey(s[1..], cmp), cmp)
  }

  lemma {:induction false} InsertSorted<K(!new), V>(x: (K, V), t: seq<(K, V)>, cmp: (K, K) -> int)
    requires ValidComparator(cmp)
    requires SortedByKey(t, cmp)
    ensures SortedByKey(Insert(x, t, cmp), cmp)
  {
    if |t| > 0 && cmp(x.0, t[0].0) > 0 {
      InsertSorted(x, t[1..], cmp);
      var tail := Insert(x, t[1..], cmp);
      assert cmp(t[0].0, x.0) <= 0;
      forall j | 0 <= j < |tail| ensures cmp(t[0].0, tail[j].0) <= 0 {
        assert tail[j] in multiset(tail);
        assert tail[j] in multiset(t[1..]) + multiset{x};
        if tail[j] != x {
          assert tail[j] in t[1..];
        }
      }
    }
  }

  /** The sorted result is ordered by key. */
  lemma {:induction false} SortByKeySorted<K(!new), V>(s: seq<(K, V)>, cmp: (K, K) -> int)
    requires ValidComparator(cmp)
    ensures SortedByKey(SortByKey(s, cmp), cmp)
  {
    if |s| > 0 {
      SortByKeySorted(s[1..], cmp);
      InsertSorted(s[0], SortByKey(s[1..], cmp), cmp);
    }
  }

  // ---------------------------------------------------------------- stability

  /** The records of `s` whose key ties with `k`, in their order in `s`. */
  function TiedWith<K, V>(s: seq<(K, V)>, k: K, cmp: (K, K) -> int): seq<(K, V)>
  {
    if |s| == 0 then []
    else (if Tied(cmp, s[0].0, k) then [s[0]] else []) + TiedWith(s[1..], k, cmp)
  }

  lemma {:induction false} InsertTiedWith<K(!new), V>(x: (K, V), t: seq<(K, V)>, k: K, cmp: (K, K) -> int)
    requires ValidComparator(cmp)
    ensures TiedWith(Insert(x, t, cmp), k, cmp)
         == (if Tied(cmp, x.0, k) then [x] else []) + TiedWith(t, k, cmp)
  {
    var hx: seq<(K, V)> := if Tied(cmp, x.0, k) then [x] else [];
    if |t| == 0 {
      assert TiedWith([x], k, cmp) == hx + TiedWith([x][1..], k, cmp);
    } else if cmp(x.0, t[0].0) > 0 {
      var r := Insert(x, t, cmp);
      var rest := Insert(x, t[1..], cmp);
      assert r == [t[0]] + rest;
      assert r[1..] == rest;
      var h0: seq<(K, V)> := if Tied(cmp, t[0].0, k) then [t[0]] else [];
      assert TiedWith(r, k, cmp) == h0 + TiedWith(rest, k, cmp);
      InsertTiedWith(x, t[1..], k, cmp);
      assert TiedWith(t, k, cmp) == h0 + TiedWith(t[1..], k, cmp);
      // t[0] is strictly below x, so it cannot tie with k when x does.
      assert hx == [] || h0 == [];
    } else {
      var r := Insert(x, t, cmp);
      assert r == [x] + t;
      assert r[1..] == t;
    }
  }

  /**
   * Stability: the records that tie with any given key keep their relative
   * order through the sort.
   */
  lemma {:induction false} SortByKeyStable<K(!new), V>(s: seq<(K, V)>, k: K, cmp: (K, K) -> int)
    requires ValidComparator(cmp)
    ensures TiedWith(SortByKey(s, cmp), k, cmp) == TiedWith(s, k, cmp)
  {
    if |s| > 0 {
      SortByKeyStable(s[1..], k, cmp);
      InsertTiedWith(s[0], SortByKey(s[1..], cmp), k, cmp);
    }
  }

  /** Sorting an already key-sorted sequence changes nothing. */
  lemma {:induction false} SortByKeyOfSorted<K(!new), V>(s: seq<(K, V)>, cmp: (K, K) -> int)
    requires ValidComparator(cmp)
    requires SortedByKey(s, cmp)
    ensures SortByKey(s, cmp) == s
  {
    if |s| > 0 {
      var t := s[1..];
      SortedTail(s, cmp);
      SortByKeyOfSorted(t, cmp);
      InsertFront(s[0], t, cmp);
      assert [s[0]] + t == s;
    }
  }

  /** The tail of a key-sorted sequence is key-sorted and starts no lower than the head. */
  lemma SortedTail<K, V>(s: seq<(K, V)>, cmp: (K, K) -> int)
    requires |s| > 0 && SortedByKey(s, cmp)
    ensures SortedByKey(s[1..], cmp)
    ensures |s| > 1 ==> cmp(s[0].0, s[1..][0].0) <= 0
  {
    var t := s[1..];
    forall i, j | 0 <= i < j < |t|
      ensures cmp(t[i].0, t[j].0) <= 0
    {
      assert t[i] == s[i + 1] && t[j] == s[j + 1];
    }
  }

  /** A record no higher than the first of `t` is inserted in front. */
  lemma InsertFront<K, V>(x: (K, V), t: seq<(K, V)>, cmp: (K, K) -> int)
    requires |t| == 0 || cmp(x.0, t[0].0) <= 0
    ensures Insert(x, t, cmp) == [x] + t
  {
  }
}
