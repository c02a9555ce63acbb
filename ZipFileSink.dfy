/**
 * `ZipFileSink`: the same line format as `FileSink`, written into the single
 * entry of a ZIP archive (the ZIP byte encoding is not part of this model).
 */
module ZipFileSinks {
  import opened Wrappers
  import opened JavaString
  import opened KeyValueFormat

  /**
   * What `$` in a Java regular expression accepts after the match: the end
   * of the input, or one line terminator that ends the input ("\n", "\r",
   * "\r\n", U+0085, U+2028 or U+2029).
   */
  predicate FinalTerminator(t: string) {
    t == "" || t == "\n" || t == "\r" || t == "\r\n" || t == "\U{85}" || t == "\U{2028}" || t == "\U{2029}"
  }

  /** The pattern `\.zip$` matches at position `i` of the name. */
  predicate ZipAt(fileName: string, i: nat) {
    i + 4 <= |fileName| && fileName[i..i + 4] == ".zip" && FinalTerminator(fileName[i + 4..])
  }

  /** Where the pattern `\.zip$` matches, trying the four, five and six last characters. */
  function ZipPosition(fileName: string): (r: Option<nat>)
    ensures r.Some? ==> ZipAt(fileName, r.value)
  {
    var n := |fileName|;
    if n >= 4 && ZipAt(fileName, n - 4) then Some(n - 4)
    else if n >= 5 && ZipAt(fileName, n - 5) then Some(n - 5)
    else if n >= 6 && ZipAt(fileName, n - 6) then Some(n - 6)
    else None
  }

  /** The pattern matches at one position at most: a line terminator holds no 'p'. */
  lemma {:induction false} ZipAtIsPosition(fileName: string, i: nat)
    requires ZipAt(fileName, i)
    ensures ZipPosition(fileName) == Some(i)
  {
    var n := |fileName|;
    var t := fileName[i + 4..];
    assert |t| <= 2 && 'p' !in t;
    if i + 4 < n {
      assert fileName[n - 1] == t[|t| - 1];
      assert fileName[n - 4..n][3] == fileName[n - 1];
    }
    if i + 5 < n {
      assert fileName[n - 2] == t[|t| - 2];
      assert fileName[n - 5..n - 1][3] == fileName[n - 2];
    }
  }

  /**
   * The entry name derived from the archive's file name (its last path
   * component), as `replaceFirst("\\.zip$", ".txt")` gives it: a ".zip" that
   * ends the name, or that only a final line terminator follows, becomes
   * ".txt"; any other name is kept.
   */
  function EntryName(fileName: string): (entry: string)
    ensures forall i: nat :: ZipAt(fileName, i) ==> entry == fileName[..i] + ".txt" + fileName[i + 4..]
    ensures (forall i: nat :: !ZipAt(fileName, i)) ==> entry == fileName
    ensures |entry| == |fileName|
  {
    match ZipPosition(fileName)
    case None =>
      assert forall i: nat :: !ZipAt(fileName, i) by {
        forall i: nat | ZipAt(fileName, i) ensures false {
          ZipAtIsPosition(fileName, i);
        }
      }
      fileName
    case Some(i) =>
      assert forall j: nat :: ZipAt(fileName, j) ==> j == i by {
        forall j: nat | ZipAt(fileName, j) ensures j == i {
          ZipAtIsPosition(fileName, j);
        }
      }
      fileName[..i] + ".txt" + fileName[i + 4..]
  }

  /** A name that ends in ".zip" has that suffix replaced by ".txt". */
  lemma ZipSuffixReplaced(fileName: string)
    requires EndsWith(fileName, ".zip")
    ensures EntryName(fileName) == fileName[..|fileName| - 4] + ".txt"
  {
    assert ZipAt(fileName, |fileName| - 4) && fileName[|fileName|..] == "";
  }

  /** Only the last ".zip" is rewritten: "a.zip.zip" has the entry "a.zip.txt". */
  lemma OnlyLastSuffixRewritten()
    ensures EntryName("a.zip.zip") == "a.zip.txt"
  {
    ZipSuffixReplaced("a.zip.zip");
  }

  /** "a.zip.gz" does not end in ".zip" and is kept. */
  lemma OtherSuffixKept()
    ensures EntryName("a.zip.gz") == "a.zip.gz"
  {
    var f := "a.zip.gz";
    assert f[4] == 'p' && f[3] == 'i' && f[2] == 'z';
    assert ZipPosition(f) == None;
  }

  /** A line terminator after ".zip" is kept after ".txt". */
  lemma TerminatedZipName(stem: string, terminator: string)
    requires FinalTerminator(terminator)
    ensures EntryName(stem + ".zip" + terminator) == stem + ".txt" + terminator
  {
    var f, i := stem + ".zip" + terminator, |stem|;
    assert f[..i] == stem && f[i..i + 4] == ".zip" && f[i + 4..] == terminator;
    assert ZipAt(f, i);
  }

  /** "a.zip\n" has the entry "a.txt\n", and "a.zip\r\n" the entry "a.txt\r\n". */
  lemma FinalTerminatorKept()
    ensures EntryName("a.zip\n") == "a.txt\n"
    ensures EntryName("a.zip\r\n") == "a.txt\r\n"
  {
    assert "a" + ".zip" + "\n" == "a.zip\n" && "a" + ".txt" + "\n" == "a.txt\n";
    TerminatedZipName("a", "\n");
    assert "a" + ".zip" + "\r\n" == "a.zip\r\n" && "a" + ".txt" + "\r\n" == "a.txt\r\n";
    TerminatedZipName("a", "\r\n");
  }

  class ZipFileSink<K, V> {
    const keyCodec: Codec<K>
    const valueCodec: Codec<V>
    /** Names of the archive entries opened, in order. */
    var entries: seq<string>
    /** The lines written into the open entry. */
    var lines: seq<string>
    var closed: bool
    ghost var puts: seq<(K, V)>

    ghost predicate Valid()
      reads this
    {
      lines == Lines(puts, keyCodec, valueCodec) && |entries| == 1
    }

    /** Opens exactly one entry, named after the archive, before anything is put. */
    constructor (keyCodec: Codec<K>, valueCodec: Codec<V>, zipFileName: string)
      ensures Valid() && !closed
      ensures this.keyCodec == keyCodec && this.valueCodec == valueCodec
      ensures entries == [EntryName(zipFileName)]
      ensures lines == [] && puts == []
    {
      this.keyCodec := keyCodec;
      this.valueCodec := valueCodec;
      entries := [EntryName(zipFileName)];
      lines := [];
      closed := false;
      puts := [];
    }

    method Put(key: K, value: V) returns (r: Result<()>)
      requires Valid()
      modifies this
      ensures Valid() && closed == old(closed) && entries == old(entries)
      ensures r.Ok? <==> !old(closed)
      ensures r.Err? ==> r.error.IO?
      ensures r.Ok? ==> puts == old(puts) + [(key, value)]
      ensures r.Ok? ==> lines == old(lines) + [FormatLine(key, value, keyCodec, valueCodec)]
      ensures r.Err? ==> lines == old(lines) && puts == old(puts)
    {
      if closed {
        return Err(IO(IO_EXCEPTION, "Stream closed"));
      }
      lines := lines + [FormatLine(key, value, keyCodec, valueCodec)];
      puts := puts + [(key, value)];
      return Ok(());
    }

    /** Flushes, closes the entry, then the archive. */
    method Close()
      requires Valid()
      modifies this
      ensures Valid() && closed
      ensures lines == old(lines) && puts == old(puts) && entries == old(entries)
    {
      closed := true;
    }
  }
}
