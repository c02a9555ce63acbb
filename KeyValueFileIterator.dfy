/**
 * `KeyValueFileIterator`: reads a text file (or the first entry of a ZIP
 * archive) line by line and turns each line into a key/value pair.
 */
module KeyValueFileIterators {
  import opened Wrappers
  import opened JavaString
  import opened KeyValueFormat

  /**
   * The lines the iterator will read. A path ending in ".zip" is read as an
   * archive: its first entry, or an IOException when it has none. Any other
   * path is read as plain text.
   */
  function OpenLines(path: string, archiveEntries: seq<seq<string>>, plainLines: seq<string>)
    : (r: Result<seq<string>>)
    ensures EndsWith(path, ".zip") && |archiveEntries| == 0 <==> r.Err?
    ensures r.Err? ==> r.error == IO(IO_EXCEPTION, "ZIP file is empty: " + path)
    ensures r.Ok? && EndsWith(path, ".zip") ==> r.value == archiveEntries[0]
    ensures r.Ok? && !EndsWith(path, ".zip") ==> r.value == plainLines
  {
    if EndsWith(path, ".zip") then
      if |archiveEntries| == 0 then Err(IO(IO_EXCEPTION, "ZIP file is empty: " + path))
      else Ok(archiveEntries[0])
    else Ok(plainLines)
  }

  class KeyValueFileIterator<K, V> {
    const keyCodec: Codec<K>
    const valueCodec: Codec<V>
    /** All lines of the file. */
    const lines: seq<string>
    /** Index of the pending line (`nextLine`); `|lines|` once the file is exhausted. */
    var pos: nat

    ghost predicate Valid()
      reads this
    {
      pos <= |lines|
    }

    /** The constructor reads the first line ahead. */
    constructor (lines: seq<string>, keyCodec: Codec<K>, valueCodec: Codec<V>)
      ensures Valid() && pos == 0
      ensures this.lines == lines && this.keyCodec == keyCodec && this.valueCodec == valueCodec
    {
      this.lines := lines;
      this.keyCodec := keyCodec;
      this.valueCodec := valueCodec;
      pos := 0;
    }

    /** A line is pending. */
    function HasNext(): (b: bool)
      requires Valid()
      reads this
      ensures b <==> pos < |lines|
    {
      pos < |lines|
    }

    /**
     * Parses the pending line at its first space and reads the next line.
     * At the end of input: NoSuchElementException. A line without a space:
     * IllegalArgumentException, and the iterator does not move.
     */
    method Next() returns (r: Result<(K, V)>)
      requires Valid()
      modifies this
      ensures Valid()
      ensures old(pos) == |lines| ==> r == Err(NoSuchElement) && pos == old(pos)
      ensures old(pos) < |lines| && ' ' !in lines[old(pos)] ==>
                r == Err(IllegalArgument("Invalid key-value pair: " + lines[old(pos)])) && pos == old(pos)
      ensures old(pos) < |lines| && ' ' in lines[old(pos)] ==>
                r == ParseLine(lines[old(pos)], keyCodec, valueCodec) && pos == old(pos) + 1
    {
      if pos == |lines| {
        return Err(NoSuchElement);
      }
      var parts := SplitLine(lines[pos]);
      if parts.Err? {
        return Err(parts.error);
      }
      r := Ok((keyCodec.deserialize(parts.value.0), valueCodec.deserialize(parts.value.1)));
      pos := pos + 1;
    }

    /**
     * Reads every remaining pair, as the reduce task does before merging:
     * one pair per line, in file order, stopping at the first bad line.
     */
    method ReadRemaining() returns (r: Result<seq<(K, V)>>)
      requires Valid()
      modifies this
      ensures Valid()
      ensures r == ReadAll(old(lines[pos..]), keyCodec, valueCodec)
      ensures r.Ok? ==> pos == |lines|
    {
      var acc: seq<(K, V)> := [];
      ghost var start := pos;
      PrependNothing(ReadAll(lines[pos..], keyCodec, valueCodec));
      while pos < |lines|
        invariant start <= pos <= |lines|
        invariant ReadAll(lines[start..], keyCodec, valueCodec)
               == Prepend(acc, ReadAll(lines[pos..], keyCodec, valueCodec))
        decreases |lines| - pos
      {
        ReadAllStep(lines, pos, keyCodec, valueCodec);
        ghost var rest := ReadAll(lines[pos..], keyCodec, valueCodec);
        var p := Next();
        if p.Err? {
          assert rest == Err(p.error);
          return Err(p.error);
        }
        assert rest == Prepend([p.value], ReadAll(lines[pos..], keyCodec, valueCodec));
        PrependTwice(acc, [p.value], ReadAll(lines[pos..], keyCodec, valueCodec));
        acc := acc + [p.value];
      }
      assert acc + [] == acc;
      return Ok(acc);
    }
  }

  /** `prefix` put in front of a successful read; an error passes through. */
  function Prepend<T>(prefix: seq<T>, r: Result<seq<T>>): Result<seq<T>> {
    match r
    case Ok(rest) => Ok(prefix + rest)
    case Err(e) => Err(e)
  }

  lemma ReadAllStep<K, V>(lines: seq<string>, pos: nat, kc: Codec<K>, vc: Codec<V>)
    requires pos < |lines|
    ensures ParseLine(lines[pos], kc, vc).Err? ==>
              ReadAll(lines[pos..], kc, vc) == Err(ParseLine(lines[pos], kc, vc).error)
    ensures ParseLine(lines[pos], kc, vc).Ok? ==>
              ReadAll(lines[pos..], kc, vc)
              == Prepend([ParseLine(lines[pos], kc, vc).value], ReadAll(lines[pos + 1..], kc, vc))
  {
    assert lines[pos..][1..] == lines[pos + 1..];
  }

  lemma PrependNothing<T>(r: Result<seq<T>>)
    ensures Prepend([], r) == r
  {
    if r.Ok? {
      assert [] + r.value == r.value;
    }
  }

  lemma PrependTwice<T>(a: seq<T>, b: seq<T>, r: Result<seq<T>>)
    ensures Prepend(a, Prepend(b, r)) == Prepend(a + b, r)
  {
    if r.Ok? {
      assert a + (b + r.value) == (a + b) + r.value;
    }
  }

  /** A key/value pair written by a sink and read back from its line. */
  lemma SinkLineReadBack<K(!new), V(!new)>(key: K, value: V, kc: Codec<K>, vc: Codec<V>)
    requires LineSafe(kc, vc)
    ensures ParseLine(FormatLine(key, value, kc, vc), kc, vc) == Ok((key, value))
  {
    LineTextRoundTrip(kc.serialize(key), vc.serialize(value));
  }
}
