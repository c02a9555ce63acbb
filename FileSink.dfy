/** `FileSink`: writes one `key value` line per record to a text file. */
module FileSinks {
  import opened Wrappers
  import opened KeyValueFormat

  class FileSink<K, V> {
    const keyCodec: Codec<K>
    const valueCodec: Codec<V>
    /** The lines written so far. */
    var lines: seq<string>
    var closed: bool
    /** The records put so far, in put order. */
    ghost var puts: seq<(K, V)>

    ghost predicate Valid()
      reads this
    {
      lines == Lines(puts, keyCodec, valueCodec)
    }

    /** Opening the writer creates (or truncates) the file. */
    constructor (keyCodec: Codec<K>, valueCodec: Codec<V>)
      ensures Valid() && !closed
      ensures this.keyCodec == keyCodec && this.valueCodec == valueCodec
      ensures lines == [] && puts == []
    {
      this.keyCodec := keyCodec;
      this.valueCodec := valueCodec;
      lines := [];
      closed := false;
      puts := [];
    }

    /** Appends exactly one line; writing to a closed writer is an IOException. */
    method Put(key: K, value: V) returns (r: Result<()>)
      requires Valid()
      modifies this
      ensures Valid() && closed == old(closed)
      ensures r.Ok? <==> !old(closed)
      ensures r.Err? ==> r.error.IO?
      ensures r.Ok? ==> puts == old(puts) + [(key, value)]
      ensures r.Ok? ==> lines == old(lines) + [FormatLine(key, value, keyCodec, valueCodec)]
      ensures r.Err? ==> lines == old(lines) && puts == old(puts)
    {
      if closed {
        return Err(IO(IO_EXCEPTION, "Stream closed"));
      }
      lines := lines + [FormatLine(key, value, keyCodec, valueCodec)];
      puts := puts + [(key, value)];
      return Ok(());
    }

    method Close()
      requires Valid()
      modifies this
      ensures Valid() && closed
      ensures lines == old(lines) && puts == old(puts)
    {
      closed := true;
    }
  }

  /** Puts every record of `records`, in order, into an open sink. */
  method PutAll<K, V>(sink: FileSink<K, V>, records: seq<(K, V)>)
    requires sink.Valid() && !sink.closed
    modifies sink
    ensures sink.Valid() && !sink.closed
    ensures sink.puts == old(sink.puts) + records
    ensures sink.lines == old(sink.lines) + Lines(records, sink.keyCodec, sink.valueCodec)
  {
    ghost var before := sink.puts;
    ghost var all := before + records;
    for i := 0 to |records|
      invariant sink.Valid() && !sink.closed
      invariant sink.puts == all[..|before| + i]
    {
      var _ := sink.Put(records[i].0, records[i].1);
      assert all[..|before| + i + 1] == all[..|before| + i] + [all[|before| + i]];
    }
    assert all[..|before| + |records|] == all;
    LinesAppend(before, records, sink.keyCodec, sink.valueCodec);
  }

  /**
   * Writes `records` to a new file through a `FileSink` and returns the
   * file's lines: one per record, in put order, and none when nothing was put.
   */
  method WriteFile<K, V>(kc: Codec<K>, vc: Codec<V>, records: seq<(K, V)>) returns (lines: seq<string>)
    ensures lines == Lines(records, kc, vc)
  {
    var sink := new FileSink(kc, vc);
    PutAll(sink, records);
    assert sink.puts == records;
    sink.Close();
    lines := sink.lines;
  }
}
