/**
 * `PartitionedFileSink`: routes each record to one of several sinks, chosen
 * by the key's hash, and closes them all together. In a map task the sinks
 * are the reducers' sorted sinks.
 */
module PartitionedFileSinks {
  import opened Wrappers
  import opened JavaInt
  import opened Ordering
  import opened KeyValueFormat
  import opened SortedFileSinks

  /** `KeyHasher`: a Java `int` per key, taken as its two's-complement wrap. */
  type Hasher<!K> = K -> int

  /** `(hash % n + n) % n` in Java `int` arithmetic. */
  function SinkIndex(hash: int, n: int): int
    requires n >= 1
  {
    JavaRem(Wrap32(JavaRem(hash, n) + n), n)
  }

  /**
   * For every `int` hash, negative ones included, the index is the
   * non-negative residue of the hash, so it names one of the `n` sinks (as
   * long as `hash % n + n` cannot overflow, which holds up to 2^30 sinks).
   */
  lemma SinkIndexInRange(hash: int, n: int)
    requires IsInt32(hash) && 1 <= n <= 0x4000_0000
    ensures SinkIndex(hash, n) == hash % n
    ensures 0 <= SinkIndex(hash, n) < n
  {
    var r := JavaRem(hash, n);
    assert IsInt32(r + n);
    ModShift(r, 1, n);
  }

  /** With more sinks than that, the sum can wrap and the index be negative. */
  lemma SinkIndexOverflow()
    ensures SinkIndex(0x5FFF_FFFF, 0x6000_0000) < 0
  {
    assert JavaRem(0x5FFF_FFFF, 0x6000_0000) == 0x5FFF_FFFF;
    assert Wrap32(0xBFFF_FFFF) == -0x4000_0001;
  }

  /** The sink a key is routed to. */
  function Route<K>(hasher: Hasher<K>, n: int, key: K): int
    requires n >= 1
  {
    SinkIndex(Wrap32(hasher(key)), n)
  }

  /** `Route` as a function of the key alone. */
  function Destination<K>(hasher: Hasher<K>, n: int): K -> int
    requires n >= 1
  {
    k => Route(hasher, n, k)
  }

  /** The records of `puts` whose destination is `i`, in put order. */
  function Routed<K, V>(puts: seq<(K, V)>, dest: K -> int, i: int): (r: seq<(K, V)>)
    ensures |r| <= |puts|
    ensures forall j :: 0 <= j < |r| ==> dest(r[j].0) == i
  {
    if |puts| == 0 then []
    else
      var last := puts[|puts| - 1];
      Routed(puts[..|puts| - 1], dest, i) + (if dest(last.0) == i then [last] else [])
  }

  /** One more put reaches its own destination's share and no other. */
  lemma RoutedSnoc<K, V>(puts: seq<(K, V)>, dest: K -> int, i: int, x: (K, V))
    ensures Routed(puts + [x], dest, i) == Routed(puts, dest, i) + (if dest(x.0) == i then [x] else [])
  {
    assert (puts + [x])[..|puts|] == puts;
  }

  /** Every record put is in the share of its own destination. */
  lemma {:induction false} RoutedHolds<K, V>(puts: seq<(K, V)>, dest: K -> int, p: nat)
    requires p < |puts|
    ensures puts[p] in Routed(puts, dest, dest(puts[p].0))
  {
    var init := puts[..|puts| - 1];
    assert puts == init + [puts[|puts| - 1]];
    RoutedSnoc(init, dest, dest(puts[p].0), puts[|puts| - 1]);
    if p < |puts| - 1 {
      assert init[p] == puts[p];
      RoutedHolds(init, dest, p);
    }
  }

  /** A share holds only records that were put. */
  lemma {:induction false} RoutedIn<K, V>(puts: seq<(K, V)>, dest: K -> int, i: int, q: (K, V))
    requires q in Routed(puts, dest, i)
    ensures q in puts
  {
    var init := puts[..|puts| - 1];
    assert puts == init + [puts[|puts| - 1]];
    if q in Routed(init, dest, i) {
      RoutedIn(init, dest, i, q);
    }
  }

  /**
   * When every record routes to one of the `n` sinks, the records put all
   * read back exactly when every sink's share does.
   */
  lemma ReadableShares<K, V>(puts: seq<(K, V)>, dest: K -> int, n: nat, kc: Codec<K>, vc: Codec<V>)
    requires forall p :: 0 <= p < |puts| ==> 0 <= dest(puts[p].0) < n
    ensures Readable(puts, kc, vc) <==> forall i :: 0 <= i < n ==> Readable(Routed(puts, dest, i), kc, vc)
  {
    if Readable(puts, kc, vc) {
      forall i | 0 <= i < n
        ensures Readable(Routed(puts, dest, i), kc, vc)
      {
        ShareReadable(puts, dest, i, kc, vc);
      }
    } else {
      var q :| q in puts && !Spaced(RecordLines(q, kc, vc));
      var p :| 0 <= p < |puts| && puts[p] == q;
      RoutedHolds(puts, dest, p);
      assert !Readable(Routed(puts, dest, dest(q.0)), kc, vc);
    }
  }

  lemma ShareReadable<K, V>(puts: seq<(K, V)>, dest: K -> int, i: int, kc: Codec<K>, vc: Codec<V>)
    requires Readable(puts, kc, vc)
    ensures Readable(Routed(puts, dest, i), kc, vc)
  {
    forall q | q in Routed(puts, dest, i)
      ensures Spaced(RecordLines(q, kc, vc))
    {
      RoutedIn(puts, dest, i, q);
    }
  }

  /** The share of a concatenation is the concatenation of the shares. */
  lemma {:induction false} RoutedAppend<K, V>(a: seq<(K, V)>, b: seq<(K, V)>, dest: K -> int, i: int)
    ensures Routed(a + b, dest, i) == Routed(a, dest, i) + Routed(b, dest, i)
  {
    if |b| == 0 {
      assert a + b == a;
    } else {
      var init, last := b[..|b| - 1], b[|b| - 1];
      RoutedAppend(a, init, dest, i);
      assert a + b == (a + init) + [last];
      RoutedSnoc(a + init, dest, i, last);
      assert b == init + [last];
      RoutedSnoc(init, dest, i, last);
    }
  }

  /** How many records the shares of destinations `0 .. m - 1` hold together. */
  function SharesSize<K, V>(puts: seq<(K, V)>, dest: K -> int, m: nat): nat {
    if m == 0 then 0 else SharesSize(puts, dest, m - 1) + |Routed(puts, dest, m - 1)|
  }

  lemma {:induction false} SharesSizeSnoc<K, V>(puts: seq<(K, V)>, dest: K -> int, m: nat, x: (K, V))
    ensures SharesSize(puts + [x], dest, m) == SharesSize(puts, dest, m) + (if 0 <= dest(x.0) < m then 1 else 0)
  {
    if m > 0 {
      SharesSizeSnoc(puts, dest, m - 1, x);
      RoutedSnoc(puts, dest, m - 1, x);
    }
  }

  /**
   * When every destination is one of `0 .. n - 1`, the shares partition the
   * records: each record is in its destination's share, a share holds only
   * records routed to it, and the shares add up to the records put.
   */
  lemma {:induction false} RoutedPartition<K, V>(puts: seq<(K, V)>, dest: K -> int, n: nat)
    requires forall p :: 0 <= p < |puts| ==> 0 <= dest(puts[p].0) < n
    ensures SharesSize(puts, dest, n) == |puts|
  {
    if |puts| == 0 {
      SharesSizeNone<K, V>(dest, n);
    } else {
      var init, x := puts[..|puts| - 1], puts[|puts| - 1];
      forall p | 0 <= p < |init|
        ensures 0 <= dest(init[p].0) < n
      {
        assert init[p] == puts[p];
      }
      RoutedPartition(init, dest, n);
      SharesSizeSnoc(init, dest, n, x);
      assert puts == init + [x];
    }
  }

  lemma {:induction false} SharesSizeNone<K, V>(dest: K -> int, m: nat)
    ensures SharesSize<K, V>([], dest, m) == 0
  {
    if m > 0 {
      SharesSizeNone<K, V>(dest, m - 1);
    }
  }

  /**
   * Hash routing over at most 2^30 sinks partitions the records among them:
   * each record reaches the share of a sink that exists, and no record is
   * lost or duplicated.
   */
  lemma RoutingPartitions<K, V>(puts: seq<(K, V)>, hasher: Hasher<K>, n: int)
    requires 1 <= n <= 0x4000_0000
    ensures forall p :: 0 <= p < |puts| ==> var i := Route(hasher, n, puts[p].0);
              0 <= i < n && puts[p] in Routed(puts, Destination(hasher, n), i)
    ensures SharesSize(puts, Destination(hasher, n), n) == |puts|
  {
    var dest := Destination(hasher, n);
    forall p | 0 <= p < |puts|
      ensures 0 <= dest(puts[p].0) < n
      ensures puts[p] in Routed(puts, dest, dest(puts[p].0))
    {
      SinkIndexInRange(Wrap32(hasher(puts[p].0)), n);
      RoutedHolds(puts, dest, p);
    }
    RoutedPartition(puts, dest, n);
  }

  /** No two positions of the list hold the same sink object. */
  predicate Distinct<T(==)>(s: seq<T>) {
    forall i, j :: 0 <= i < j < |s| ==> s[i] != s[j]
  }

  class PartitionedFileSink<K(!new), V(!new)> {
    const sinks: seq<SortedFileSink<K, V>>
    const hasher: Hasher<K>
    /** What each sink had been given before it joined this sink. */
    ghost const initial: seq<seq<(K, V)>>
    /** The records put through this sink, in put order. */
    ghost var puts: seq<(K, V)>

    ghost function Objects(): set<object>
      reads this
    {
      set i | 0 <= i < |sinks| :: sinks[i]
    }

    /**
     * Every sink is valid and, when no sink is listed twice, each one holds
     * what it had before followed by its share of the records put.
     */
    ghost predicate Valid()
      reads this, Objects()
    {
      && 1 <= |sinks| <= INT_MAX
      && |initial| == |sinks|
      && (forall i :: 0 <= i < |sinks| ==> sinks[i].Valid())
      && (Distinct(sinks) ==>
            forall i :: 0 <= i < |sinks| ==> sinks[i].puts == initial[i] + Routed(puts, Destination(hasher, |sinks|), i))
    }

    constructor (sinks: seq<SortedFileSink<K, V>>, hasher: Hasher<K>)
      requires 1 <= |sinks| <= INT_MAX
      requires forall i :: 0 <= i < |sinks| ==> sinks[i].Valid()
      ensures Valid() && this.sinks == sinks && this.hasher == hasher && puts == []
      ensures forall i :: 0 <= i < |sinks| ==> initial[i] == sinks[i].puts
    {
      this.sinks := sinks;
      this.hasher := hasher;
      this.initial := seq(|sinks|, i reads set j | 0 <= j < |sinks| :: sinks[j] => if 0 <= i < |sinks| then sinks[i].puts else []);
      this.puts := [];
    }

    /**
     * Forwards the record to the sink its key routes to; every other sink
     * object is left as it was. An index outside the list is the
     * `IndexOutOfBoundsException` of `List.get`, and then nothing changes.
     */
    method Put(key: K, value: V) returns (r: Result<()>)
      requires Valid()
      modifies this, Objects()
      ensures Valid()
      ensures r.Ok? <==> 0 <= Route(hasher, |sinks|, key) < |sinks|
      ensures r.Ok? ==> puts == old(puts) + [(key, value)]
      ensures r.Ok? ==> var i := Route(hasher, |sinks|, key);
                        && sinks[i].puts == old(sinks[i].puts) + [(key, value)]
                        && forall j :: 0 <= j < |sinks| && sinks[j] != sinks[i] ==> unchanged(sinks[j])
      ensures r.Err? ==> r.error == IndexOutOfBounds && puts == old(puts)
      ensures r.Err? ==> forall j :: 0 <= j < |sinks| ==> unchanged(sinks[j])
    {
      var i := SinkIndex(Wrap32(hasher(key)), |sinks|);
      if i < 0 || i >= |sinks| {
        return Err(IndexOutOfBounds);
      }
      var target := sinks[i];
      ghost var before := puts;
      puts := puts + [(key, value)];
      label Routing:
      target.Put(key, value);
      forall j | 0 <= j < |sinks|
        ensures sinks[j].Valid()
        ensures sinks[j] != target ==> unchanged@Routing(sinks[j])
      {
      }
      if Distinct(sinks) {
        var dest := Destination(hasher, |sinks|);
        assert dest(key) == i;
        forall j | 0 <= j < |sinks|
          ensures sinks[j].puts == initial[j] + Routed(puts, dest, j)
        {
          RoutedSnoc(before, dest, j, (key, value));
        }
      }
      return Ok(());
    }

    /**
     * Closes every sink, in list order. It fails, with the failing sink's
     * exception, exactly when some sink holds a record that does not read
     * back from its dump; the sinks before the first such sink are then
     * closed, and the later ones are not.
     */
    method Close() returns (r: Result<()>)
      requires Valid()
      modifies Objects()
      ensures Valid()
      ensures forall i :: 0 <= i < |sinks| ==> sinks[i].puts == old(sinks[i].puts)
      ensures r.Ok? <==> forall i :: 0 <= i < |sinks| ==> Readable(sinks[i].puts, sinks[i].keyCodec, sinks[i].valueCodec)
      ensures r.Ok? ==> forall i :: 0 <= i < |sinks| ==> Closed(sinks[i])
      ensures r.Err? ==> ReadBackFailure(r.error)
      ensures r.Err? ==> exists f :: 0 <= f < |sinks| && FirstUnreadable(f) &&
                                     forall j :: 0 <= j < f ==> Closed(sinks[j])
    {
      ghost var puts0 := seq(|sinks|, j reads this, Objects() => if 0 <= j < |sinks| then sinks[j].puts else []);
      for i := 0 to |sinks|
        invariant ClosedUpTo(i, puts0)
        invariant forall j :: 0 <= j < |sinks| ==> puts0[j] == old(sinks[j].puts)
        invariant forall j :: 0 <= j < i ==> Readable(sinks[j].puts, sinks[j].keyCodec, sinks[j].valueCodec)
      {
        r := CloseSink(i, puts0);
        if r.Err? {
          assert FirstUnreadable(i);
          return;
        }
      }
      return Ok(());
    }

    /** Sink `f` is the first whose records do not all read back. */
    ghost predicate FirstUnreadable(f: int)
      reads this, Objects()
    {
      && 0 <= f < |sinks|
      && !Readable(sinks[f].puts, sinks[f].keyCodec, sinks[f].valueCodec)
      && forall j :: 0 <= j < f ==> Readable(sinks[j].puts, sinks[j].keyCodec, sinks[j].valueCodec)
    }

    /**
     * Every sink is valid and still holds the records `puts0` says, and the
     * first `n` sinks are closed.
     */
    ghost predicate ClosedUpTo(n: int, puts0: seq<seq<(K, V)>>)
      reads this, Objects()
    {
      && |puts0| == |sinks|
      && (forall j :: 0 <= j < |sinks| ==> sinks[j].Valid() && sinks[j].puts == puts0[j])
      && (forall j :: 0 <= j < n && j < |sinks| ==> Closed(sinks[j]))
    }

    /**
     * Closes sink `i`; no other sink object changes. It fails exactly when
     * the sink holds a record that does not read back.
     */
    method CloseSink(i: nat, ghost puts0: seq<seq<(K, V)>>) returns (r: Result<()>)
      requires i < |sinks| && ClosedUpTo(i, puts0)
      requires forall j :: 0 <= j < i ==> Readable(sinks[j].puts, sinks[j].keyCodec, sinks[j].valueCodec)
      modifies Objects()
      ensures ClosedUpTo(i, puts0)
      ensures r.Ok? <==> Readable(sinks[i].puts, sinks[i].keyCodec, sinks[i].valueCodec)
      ensures r.Ok? ==> ClosedUpTo(i + 1, puts0)
      ensures r.Err? ==> ReadBackFailure(r.error)
      ensures puts == old(puts)
    {
      var target := sinks[i];
      label Closing:
      r := target.Close();
      forall j | 0 <= j < |sinks|
        ensures sinks[j].Valid() && sinks[j].puts == puts0[j]
        ensures j < i || (j == i && r.Ok?) ==> Closed(sinks[j])
      {
        if sinks[j] != target {
          assert unchanged@Closing(sinks[j]);
        }
      }
    }
  }

  /**
   * The constructor's check: an empty sink list is rejected with
   * IllegalArgumentException; otherwise the sink routes over the list given.
   */
  method NewPartitionedFileSink<K(!new), V(!new)>(sinks: seq<SortedFileSink<K, V>>, hasher: Hasher<K>)
    returns (r: Result<PartitionedFileSink<K, V>>)
    requires |sinks| <= INT_MAX
    requires forall i :: 0 <= i < |sinks| ==> sinks[i].Valid()
    ensures r.Err? <==> |sinks| == 0
    ensures r.Err? ==> r.error == IllegalArgument("Sink list cannot be null or empty.")
    ensures r.Ok? ==> fresh(r.value) && r.value.Valid() && r.value.puts == []
    ensures r.Ok? ==> r.value.sinks == sinks && r.value.hasher == hasher
    ensures r.Ok? ==> forall i :: 0 <= i < |sinks| ==> r.value.initial[i] == sinks[i].puts
  {
    if |sinks| == 0 {
      return Err(IllegalArgument("Sink list cannot be null or empty."));
    }
    var sink := new PartitionedFileSink(sinks, hasher);
    return Ok(sink);
  }

  /**
   * What a sorted sink holds once closed without error: its buffer spilled,
   * every record put read back, and its output the merged records which,
   * with line-safe codecs, are the records put, sorted by key.
   */
  ghost predicate Closed<K(!new), V(!new)>(s: SortedFileSink<K, V>)
    reads s
  {
    && s.buffer == []
    && Readable(s.puts, s.keyCodec, s.valueCodec)
    && s.output == Lines(s.merged, s.keyCodec, s.valueCodec)
    && (LineSafe(s.keyCodec, s.valueCodec) ==> multiset(s.merged) == multiset(s.puts) && SortedByKey(s.merged, s.cmp))
  }
}
