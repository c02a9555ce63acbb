/**
 * `GroupedKeyValuesIterator`: turns a stream of key/value records into
 * groups of consecutive records with equal keys. The outer iterator holds the
 * head record of its input; each group's value iterator shares that head and
 * moves it forward as it reads.
 *
 * The outer `next` does not skip what a group left unread: an unread or
 * partly read group is delivered again, with the same key and its remaining
 * values.
 */
module GroupedKeyValuesIterators {
  import opened Wrappers

  // ------------------------------------------------------------ specification

  /** The length of the run of records with key `k` at the front of `s`. */
  function RunLength<K(==), V>(s: seq<(K, V)>, k: K): (n: nat)
    ensures n <= |s|
    ensures forall i :: 0 <= i < n ==> s[i].0 == k
    ensures n < |s| ==> s[n].0 != k
  {
    if |s| == 0 || s[0].0 != k then 0 else 1 + RunLength(s[1..], k)
  }

  /** Any prefix of equal keys that stops at a different key or at the end is the run. */
  lemma {:induction false} RunLengthUnique<K, V>(s: seq<(K, V)>, k: K, n: nat)
    requires n <= |s|
    requires forall i :: 0 <= i < n ==> s[i].0 == k
    requires n < |s| ==> s[n].0 != k
    ensures RunLength(s, k) == n
  {
    if n > 0 {
      assert s[0].0 == k;
      RunLengthUnique(s[1..], k, n - 1);
    }
  }

  /** Dropping `i` records of the run leaves the rest of the run. */
  lemma RunLengthDrop<K, V>(s: seq<(K, V)>, k: K, i: nat)
    requires i <= RunLength(s, k)
    ensures RunLength(s[i..], k) == RunLength(s, k) - i
  {
    var n := RunLength(s, k);
    RunLengthUnique(s[i..], k, n - i);
  }

  function Values<K, V>(s: seq<(K, V)>): seq<V> {
    if |s| == 0 then [] else [s[0].1] + Values(s[1..])
  }

  lemma {:induction false} ValuesAppend<K, V>(s: seq<(K, V)>, t: seq<(K, V)>)
    ensures Values(s + t) == Values(s) + Values(t)
  {
    if |s| == 0 {
      assert s + t == t;
    } else {
      ValuesAppend(s[1..], t);
      assert (s + t)[1..] == s[1..] + t;
    }
  }

  lemma ValuesLength<K, V>(s: seq<(K, V)>)
    ensures |Values(s)| == |s|
  {
  }

  /**
   * The groups a consumer that reads every value sees: the maximal runs of
   * equal keys, in input order, each as its key and its values.
   */
  function Groups<K(==), V>(s: seq<(K, V)>): (gs: seq<(K, seq<V>)>)
    decreases |s|
  {
    if |s| == 0 then []
    else
      var n := RunLength(s, s[0].0);
      [(s[0].0, Values(s[..n]))] + Groups(s[n..])
  }

  /** The records a sequence of groups stands for, group after group. */
  function Ungroup<K, V>(gs: seq<(K, seq<V>)>): seq<(K, V)> {
    if |gs| == 0 then [] else Pairs(gs[0].0, gs[0].1) + Ungroup(gs[1..])
  }

  function Pairs<K, V>(k: K, vs: seq<V>): seq<(K, V)> {
    if |vs| == 0 then [] else [(k, vs[0])] + Pairs(k, vs[1..])
  }

  /** A run's key paired with its values gives the run back. */
  lemma {:induction false} PairsOfRun<K, V>(s: seq<(K, V)>, k: K)
    requires forall i :: 0 <= i < |s| ==> s[i].0 == k
    ensures Pairs(k, Values(s)) == s
  {
    if |s| > 0 {
      PairsOfRun(s[1..], k);
    }
  }

  /** The groups concatenate back to the input. */
  lemma {:induction false} UngroupGroups<K, V>(s: seq<(K, V)>)
    ensures Ungroup(Groups(s)) == s
    decreases |s|
  {
    if |s| > 0 {
      var n := RunLength(s, s[0].0);
      UngroupGroups(s[n..]);
      PairsOfRun(s[..n], s[0].0);
      var gs := Groups(s);
      assert gs[1..] == Groups(s[n..]);
      assert s == s[..n] + s[n..];
    }
  }

  /** Every group is non-empty, and consecutive groups have different keys. */
  lemma {:induction false} GroupsMaximal<K, V>(s: seq<(K, V)>)
    ensures forall i :: 0 <= i < |Groups(s)| ==> |Groups(s)[i].1| > 0
    ensures forall i :: 0 <= i < |Groups(s)| - 1 ==> Groups(s)[i].0 != Groups(s)[i + 1].0
    decreases |s|
  {
    if |s| > 0 {
      var n := RunLength(s, s[0].0);
      var gs := Groups(s);
      GroupsMaximal(s[n..]);
      ValuesLength(s[..n]);
      assert gs[1..] == Groups(s[n..]);
      if n < |s| {
        assert gs[1].0 == s[n].0;
      }
    }
  }

  // --------------------------------------------------------------- iterators

  class GroupedKeyValuesIterator<K(==), V> {
    /** The input iterator, as the records it yields. */
    const input: seq<(K, V)>
    /** How many records have been taken from the input. */
    var pos: nat
    /** `currentInputRecord`: the last record taken, or None once the input ran out. */
    var current: Option<(K, V)>

    ghost predicate Valid()
      reads this
    {
      && pos <= |input|
      && (current.Some? ==> 1 <= pos && current.value == input[pos - 1])
      && (current.None? ==> pos == |input|)
    }

    /** The records not yet consumed, starting with the head record. */
    ghost function Remaining(): (r: seq<(K, V)>)
      reads this
      requires Valid()
    {
      if current.Some? then input[pos - 1..] else []
    }

    /** Takes the first record of the input as the head, if there is one. */
    constructor (input: seq<(K, V)>)
      ensures Valid() && this.input == input
      ensures Remaining() == input
    {
      this.input := input;
      if |input| > 0 {
        pos, current := 1, Some(input[0]);
      } else {
        pos, current := 0, None;
      }
    }

    /** There is a head record. */
    function HasNext(): (b: bool)
      reads this
      requires Valid()
      ensures b <==> |Remaining()| > 0
    {
      current.Some?
    }

    /**
     * Delivers the head record's key with a value iterator that starts at the
     * head record's value. The input is not advanced.
     */
    method Next() returns (r: Result<(K, ValueIterator<K, V>)>)
      requires Valid()
      ensures r.Err? <==> |Remaining()| == 0
      ensures r.Err? ==> r.error == NoSuchElement
      ensures r.Ok? ==> r.value.0 == Remaining()[0].0
      ensures r.Ok? ==> fresh(r.value.1) && r.value.1.outer == this && r.value.1.groupKey == r.value.0
      ensures r.Ok? ==> r.value.1.groupCurrentValue == Some(Remaining()[0].1) && r.value.1.InSync()
    {
      if !HasNext() {
        return Err(NoSuchElement);
      }
      var groupKey := current.value.0;
      var values := new ValueIterator(this, groupKey, current.value.1);
      return Ok((groupKey, values));
    }

    /** Takes the next input record as the head, or None when the input is exhausted. */
    method Advance()
      requires Valid()
      modifies this
      ensures Valid()
      ensures pos == if old(pos) < |input| then old(pos) + 1 else old(pos)
      ensures current == if old(pos) < |input| then Some(input[old(pos)]) else None
      ensures old(current).Some? ==> Remaining() == old(Remaining())[1..]
    {
      if pos < |input| {
        current := Some(input[pos]);
        pos := pos + 1;
      } else {
        current := None;
      }
    }
  }

  /** The value iterator of one group. */
  class ValueIterator<K(==), V> {
    const outer: GroupedKeyValuesIterator<K, V>
    const groupKey: K
    /** The value to return next, or None once the group has ended. */
    var groupCurrentValue: Option<V>

    /**
     * The value iterator agrees with the head it shares: it holds a value
     * exactly when the head record has the group's key, and then that
     * record's value. It holds while this is the only value iterator in use.
     */
    ghost predicate InSync()
      reads this, outer
    {
      && outer.Valid()
      && groupCurrentValue
         == if outer.current.Some? && outer.current.value.0 == groupKey
            then Some(outer.current.value.1) else None
    }

    constructor (outer: GroupedKeyValuesIterator<K, V>, groupKey: K, first: V)
      requires outer.Valid() && outer.current == Some((groupKey, first))
      ensures this.outer == outer && this.groupKey == groupKey
      ensures groupCurrentValue == Some(first) && InSync()
    {
      this.outer := outer;
      this.groupKey := groupKey;
      groupCurrentValue := Some(first);
    }

    function HasNext(): (b: bool)
      reads this, outer
      requires InSync()
      ensures b <==> RunLength(outer.Remaining(), groupKey) > 0
      ensures b ==> groupCurrentValue.value == outer.Remaining()[0].1
    {
      groupCurrentValue.Some?
    }

    /**
     * Returns the held value, takes the next input record as the head, and
     * keeps its value only if its key is the group's key.
     */
    method Next() returns (r: Result<V>)
      requires outer.Valid()
      modifies this, outer
      ensures outer.Valid() && InSync() == (r.Ok? || old(InSync()))
      ensures r.Err? <==> old(groupCurrentValue).None?
      ensures r.Err? ==> r.error == NoSuchElement && unchanged(this, outer)
      ensures r.Ok? ==> r.value == old(groupCurrentValue).value
      ensures r.Ok? ==> outer.pos == (if old(outer.pos) < |outer.input| then old(outer.pos) + 1 else old(outer.pos))
      ensures r.Ok? && old(InSync()) ==> outer.Remaining() == old(outer.Remaining())[1..]
    {
      if groupCurrentValue.None? {
        return Err(NoSuchElement);
      }
      var result := groupCurrentValue.value;
      groupCurrentValue := None;
      outer.Advance();
      if outer.current.Some? && outer.current.value.0 == groupKey {
        groupCurrentValue := Some(outer.current.value.1);
      }
      return Ok(result);
    }
  }

  // ----------------------------------------------------------------- consumers

  function Min(a: nat, b: nat): nat {
    if a < b then a else b
  }

  /** Reading one more record of `s` adds its value to the values read. */
  lemma ValuesSnoc<K, V>(s: seq<(K, V)>, i: nat)
    requires i < |s|
    ensures Values(s[..i + 1]) == Values(s[..i]) + [s[i].1]
    ensures s[i..][1..] == s[i + 1..]
  {
    assert s[..i + 1] == s[..i] + [s[i]];
    ValuesAppend(s[..i], [s[i]]);
  }

  /**
   * Reads one more value of the group's run: the values read so far are the
   * first `|vals|` of the run, and the shared head is just past them.
   */
  method ReadStep<K(==), V>(values: ValueIterator<K, V>, ghost s: seq<(K, V)>, vals: seq<V>) returns (vals': seq<V>)
    requires values.InSync() && values.HasNext()
    requires |vals| <= RunLength(s, values.groupKey) && vals == Values(s[..|vals|])
    requires values.outer.Remaining() == s[|vals|..]
    modifies values, values.outer
    ensures values.InSync() && |vals'| == |vals| + 1 <= RunLength(s, values.groupKey)
    ensures vals' == Values(s[..|vals'|]) && values.outer.Remaining() == s[|vals'|..]
  {
    ghost var i := |vals|;
    RunLengthDrop(s, values.groupKey, i);
    ValuesSnoc(s, i);
    var r := values.Next();
    vals' := vals + [r.value];
  }

  /**
   * Reads at most `limit` values of a group. The values read are the front of
   * the run of the group's key, and the head moves past them.
   */
  method ReadValues<K(==), V>(values: ValueIterator<K, V>, limit: nat) returns (vals: seq<V>)
    requires values.InSync()
    modifies values, values.outer
    ensures values.InSync()
    ensures |vals| == Min(limit, RunLength(old(values.outer.Remaining()), values.groupKey))
    ensures vals == Values(old(values.outer.Remaining())[..|vals|])
    ensures values.outer.Remaining() == old(values.outer.Remaining())[|vals|..]
  {
    ghost var s := values.outer.Remaining();
    ghost var k := values.groupKey;
    vals := [];
    while |vals| < limit && values.HasNext()
      invariant values.InSync() && |vals| <= limit && |vals| <= RunLength(s, k)
      invariant vals == Values(s[..|vals|]) && values.outer.Remaining() == s[|vals|..]
      decreases limit - |vals|
    {
      vals := ReadStep(values, s, vals);
    }
    RunLengthDrop(s, k, |vals|);
  }

  /**
   * How many values of the run of `k` at the front of `s` a consumer reads
   * that has read `t` and stops once `enough(k, values read)` holds or the
   * run ends.
   */
  function ReadCount<K(==), V>(s: seq<(K, V)>, k: K, enough: (K, seq<V>) -> bool, t: nat): (n: nat)
    requires t <= RunLength(s, k)
    ensures t <= n <= RunLength(s, k)
    ensures n < RunLength(s, k) ==> enough(k, Values(s[..n]))
    decreases RunLength(s, k) - t
  {
    if t == RunLength(s, k) || enough(k, Values(s[..t])) then t else ReadCount(s, k, enough, t + 1)
  }

  /** A reading that stops where it first has enough, or at the end of the run, read `ReadCount` values. */
  lemma ReadCountIs<K, V>(s: seq<(K, V)>, k: K, enough: (K, seq<V>) -> bool, n: nat)
    requires n <= RunLength(s, k) && (n == RunLength(s, k) || enough(k, Values(s[..n])))
    requires forall m :: 0 <= m < n ==> !enough(k, Values(s[..m]))
    ensures ReadCount(s, k, enough, 0) == n
  {
    for t := n downto 0
      invariant ReadCount(s, k, enough, t) == n
    {
    }
  }

  lemma ReadCountStep<K, V>(s: seq<(K, V)>, k: K, enough: (K, seq<V>) -> bool, t: nat)
    requires t < RunLength(s, k) && !enough(k, Values(s[..t]))
    ensures ReadCount(s, k, enough, t) == ReadCount(s, k, enough, t + 1)
  {
  }

  lemma ReadCountDone<K, V>(s: seq<(K, V)>, k: K, enough: (K, seq<V>) -> bool, t: nat)
    requires t <= RunLength(s, k) && (t == RunLength(s, k) || enough(k, Values(s[..t])))
    ensures ReadCount(s, k, enough, t) == t
  {
  }

  /** A consumer keeps reading until it first has enough: at every earlier point it wanted more. */
  lemma {:induction false} ReadCountFirst<K, V>(s: seq<(K, V)>, k: K, enough: (K, seq<V>) -> bool, t: nat, m: nat)
    requires t <= RunLength(s, k) && t <= m < ReadCount(s, k, enough, t)
    ensures !enough(k, Values(s[..m]))
    decreases m - t
  {
    if t < m {
      ReadCountFirst(s, k, enough, t + 1, m);
    }
  }

  /**
   * Reads values while the group has one and the consumer wants more. The
   * values read are the front of the run of the group's key, as many as
   * `ReadCount` says, and the shared head moves past them.
   */
  method ReadUntil<K(==), V>(values: ValueIterator<K, V>, enough: (K, seq<V>) -> bool) returns (vals: seq<V>)
    requires values.InSync()
    modifies values, values.outer
    ensures values.InSync()
    ensures |vals| == ReadCount(old(values.outer.Remaining()), values.groupKey, enough, 0)
    ensures vals == Values(old(values.outer.Remaining())[..|vals|])
    ensures values.outer.Remaining() == old(values.outer.Remaining())[|vals|..]
  {
    ghost var s := values.outer.Remaining();
    ghost var k := values.groupKey;
    vals := [];
    assert s[..0] == [];
    while values.HasNext() && !enough(values.groupKey, vals)
      invariant values.InSync() && |vals| <= RunLength(s, k)
      invariant vals == Values(s[..|vals|]) && values.outer.Remaining() == s[|vals|..]
      invariant ReadCount(s, k, enough, 0) == ReadCount(s, k, enough, |vals|)
      decreases RunLength(s, k) - |vals|
    {
      RunLengthDrop(s, k, |vals|);
      ReadCountStep(s, k, enough, |vals|);
      vals := ReadStep(values, s, vals);
    }
    RunLengthDrop(s, k, |vals|);
    ReadCountDone(s, k, enough, |vals|);
  }

  /** Delivers the next group and reads all of its values. */
  method ReadGroup<K(==), V>(it: GroupedKeyValuesIterator<K, V>) returns (key: K, vals: seq<V>)
    requires it.Valid() && |it.Remaining()| > 0
    modifies it
    ensures it.Valid() && |it.Remaining()| < old(|it.Remaining()|)
    ensures Groups(old(it.Remaining())) == [(key, vals)] + Groups(it.Remaining())
  {
    ghost var rest := it.Remaining();
    ghost var n := RunLength(rest, rest[0].0);
    var r := it.Next();
    key := r.value.0;
    vals := ReadValues(r.value.1, |it.input|);
    assert |vals| == n && vals == Values(rest[..n]) && it.Remaining() == rest[n..];
  }

  /**
   * Reads every group to its end: the groups read are the maximal runs of the
   * input, and the input is exhausted afterwards.
   */
  method ReadAllGroups<K(==), V>(it: GroupedKeyValuesIterator<K, V>) returns (groups: seq<(K, seq<V>)>)
    requires it.Valid()
    modifies it
    ensures it.Valid() && it.Remaining() == []
    ensures groups == Groups(old(it.Remaining()))
  {
    ghost var s := it.Remaining();
    groups := [];
    while it.HasNext()
      invariant it.Valid()
      invariant Groups(s) == groups + Groups(it.Remaining())
      decreases |it.Remaining()|
    {
      var key, vals := ReadGroup(it);
      assert Groups(s) == groups + ([(key, vals)] + Groups(it.Remaining()));
      groups := groups + [(key, vals)];
    }
    assert Groups(it.Remaining()) == [];
  }

  /** Over an empty input there is no group, and `next` fails. */
  method EmptyInput<K(==), V>() returns (has: bool, r: Result<(K, ValueIterator<K, V>)>)
    ensures !has && r == Err(NoSuchElement)
  {
    var it := new GroupedKeyValuesIterator<K, V>([]);
    has := it.HasNext();
    r := it.Next();
  }

  /**
   * A group whose values were not all read is delivered again: the next
   * `next` returns the same key, and its values continue where reading
   * stopped.
   */
  method Redelivery<K(==), V>(it: GroupedKeyValuesIterator<K, V>, limit: nat)
    returns (first: K, second: Result<(K, ValueIterator<K, V>)>)
    requires it.Valid() && |it.Remaining()| > 0
    requires limit < RunLength(it.Remaining(), it.Remaining()[0].0)
    modifies it
    ensures first == old(it.Remaining())[0].0
    ensures second.Ok? && second.value.0 == first
    ensures second.value.1.groupCurrentValue == Some(old(it.Remaining())[limit].1)
  {
    var r := it.Next();
    first := r.value.0;
    var _ := ReadValues(r.value.1, limit);
    second := it.Next();
  }

  /**
   * A consumer that reads no value leaves the shared head where it was: the
   * next `next` delivers the same key again, from the same record, and the
   * remaining input is unchanged, so a loop that calls `next` while
   * `hasNext` holds never ends.
   */
  method NoReadNoProgress<K(==), V>(it: GroupedKeyValuesIterator<K, V>)
    returns (first: K, second: Result<(K, ValueIterator<K, V>)>)
    requires it.Valid() && |it.Remaining()| > 0
    modifies it
    ensures it.Valid() && it.Remaining() == old(it.Remaining())
    ensures first == old(it.Remaining())[0].0
    ensures second.Ok? && second.value.0 == first
    ensures second.value.1.groupCurrentValue == Some(old(it.Remaining())[0].1)
  {
    var r := it.Next();
    first := r.value.0;
    second := it.Next();
  }

  /** A consumer that wants no value of its group reads none of it. */
  lemma NoReadCount<K, V>(s: seq<(K, V)>, enough: (K, seq<V>) -> bool)
    requires |s| > 0 && enough(s[0].0, [])
    ensures ReadCount(s, s[0].0, enough, 0) == 0
    ensures s[ReadCount(s, s[0].0, enough, 0)..] == s
  {
    assert Values(s[..0]) == [];
  }

  // ------------------------------------------- the iterator with its fix made

  /**
   * Moves the head past what is left of the run of `key`: the step the
   * iterator's `next` is missing before it delivers the next group.
   */
  method Roll<K(==), V>(it: GroupedKeyValuesIterator<K, V>, key: K)
    requires it.Valid()
    modifies it
    ensures it.Valid()
    ensures it.Remaining() == old(it.Remaining())[RunLength(old(it.Remaining()), key)..]
  {
    ghost var s := it.Remaining();
    ghost var i := 0;
    while it.HasNext() && it.current.value.0 == key
      invariant it.Valid() && i <= RunLength(s, key) && it.Remaining() == s[i..]
      decreases |s| - i
    {
      RunLengthDrop(s, key, i);
      assert s[i..][0].0 == key;
      it.Advance();
      assert s[i..][1..] == s[i + 1..];
      i := i + 1;
    }
    RunLengthDrop(s, key, i);
  }

  /**
   * The calls a consumer gets from the iterator with the fix made: one per
   * maximal run, with its key and the values the consumer reads, whatever
   * the consumer reads.
   */
  function RolledCalls<K(==), V>(s: seq<(K, V)>, enough: (K, seq<V>) -> bool): seq<(K, seq<V>)>
    decreases |s|
  {
    if |s| == 0 then []
    else
      var k := s[0].0;
      var n := ReadCount(s, k, enough, 0);
      [(k, Values(s[..n]))] + RolledCalls(s[RunLength(s, k)..], enough)
  }

  /**
   * Each call of the fixed iterator is one group: the same keys as `Groups`,
   * in the same order, each reading a front part of its group's values.
   */
  lemma {:induction false} RolledCallsGroups<K, V>(s: seq<(K, V)>, enough: (K, seq<V>) -> bool)
    ensures |RolledCalls(s, enough)| == |Groups(s)|
    ensures forall i :: 0 <= i < |Groups(s)| ==>
      RolledCalls(s, enough)[i].0 == Groups(s)[i].0 && RolledCalls(s, enough)[i].1 <= Groups(s)[i].1
    decreases |s|
  {
    if |s| > 0 {
      var m := RunLength(s, s[0].0);
      RolledCallsGroups(s[m..], enough);
      var rc, gs := RolledCalls(s, enough), Groups(s);
      assert rc[0].1 <= gs[0].1 by {
        ValuesPrefix(s, ReadCount(s, s[0].0, enough, 0), m);
      }
      assert rc[1..] == RolledCalls(s[m..], enough);
      assert gs[1..] == Groups(s[m..]);
      forall i | 1 <= i < |gs|
        ensures rc[i].0 == gs[i].0 && rc[i].1 <= gs[i].1
      {
        assert rc[i] == rc[1..][i - 1] && gs[i] == gs[1..][i - 1];
      }
    }
  }

  /** The values of a front part of the records are a front part of their values. */
  lemma ValuesPrefix<K, V>(s: seq<(K, V)>, n: nat, m: nat)
    requires n <= m <= |s|
    ensures Values(s[..n]) <= Values(s[..m])
  {
    assert s[..m] == s[..n] + s[n..m];
    ValuesAppend(s[..n], s[n..m]);
  }

  /** A consumer that reads every value gets exactly the groups. */
  lemma {:induction false} RolledCallsReadAll<K, V>(s: seq<(K, V)>, enough: (K, seq<V>) -> bool)
    requires forall k, vs :: !enough(k, vs)
    ensures RolledCalls(s, enough) == Groups(s)
    decreases |s|
  {
    if |s| > 0 {
      var k := s[0].0;
      ReadCountIs(s, k, enough, RunLength(s, k));
      RolledCallsReadAll(s[RunLength(s, k)..], enough);
    }
  }

  /**
   * One turn of the grouping loop over the fixed iterator: the head group is
   * delivered, the consumer reads what it wants of it, and the rest of its
   * run is skipped.
   */
  method RolledGroup<K(==), V>(it: GroupedKeyValuesIterator<K, V>, enough: (K, seq<V>) -> bool)
    returns (key: K, vals: seq<V>)
    requires it.Valid() && |it.Remaining()| > 0
    modifies it
    ensures it.Valid() && |it.Remaining()| < old(|it.Remaining()|)
    ensures RolledCalls(old(it.Remaining()), enough) == [(key, vals)] + RolledCalls(it.Remaining(), enough)
  {
    ghost var rest := it.Remaining();
    var r := it.Next();
    key := r.value.0;
    vals := ReadUntil(r.value.1, enough);
    ghost var m := RunLength(rest, key);
    RunLengthDrop(rest, key, |vals|);
    assert RunLength(rest[|vals|..], key) == m - |vals|;
    Roll(it, key);
    assert it.Remaining() == rest[|vals|..][m - |vals|..] == rest[m..];
    RolledCallsStep(rest, enough, vals);
  }

  /** The first call of the fixed iterator, given the values it reads. */
  lemma RolledCallsStep<K, V>(s: seq<(K, V)>, enough: (K, seq<V>) -> bool, vals: seq<V>)
    requires |s| > 0
    requires |vals| == ReadCount(s, s[0].0, enough, 0) && vals == Values(s[..|vals|])
    ensures RolledCalls(s, enough) == [(s[0].0, vals)] + RolledCalls(s[RunLength(s, s[0].0)..], enough)
  {
  }

  /**
   * The grouping loop over the fixed iterator. It ends for every consumer,
   * including one that reads nothing.
   */
  method ReadGroupsRolled<K(==), V>(it: GroupedKeyValuesIterator<K, V>, enough: (K, seq<V>) -> bool)
    returns (calls: seq<(K, seq<V>)>)
    requires it.Valid()
    modifies it
    ensures it.Valid() && it.Remaining() == []
    ensures calls == RolledCalls(old(it.Remaining()), enough)
  {
    ghost var s := it.Remaining();
    calls := [];
    while it.HasNext()
      invariant it.Valid()
      invariant RolledCalls(s, enough) == calls + RolledCalls(it.Remaining(), enough)
      decreases |it.Remaining()|
    {
      var key, vals := RolledGroup(it, enough);
      SnocAssoc(calls, (key, vals), RolledCalls(it.Remaining(), enough));
      calls := calls + [(key, vals)];
    }
    assert RolledCalls(it.Remaining(), enough) == [];
    assert calls + [] == calls;
  }

  lemma SnocAssoc<T>(a: seq<T>, x: T, b: seq<T>)
    ensures a + ([x] + b) == (a + [x]) + b
  {
  }
}
