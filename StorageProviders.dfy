/**
 * Choosing a storage provider from a connection string
 * (`StorageProviderFactory.getStorageProvider`), and the `k=v;k=v`
 * connection parameters the S3 and MinIO providers parse (`parseConfig`,
 * the same loop in both). The providers themselves talk to a storage
 * service and are not part of this model: a provider is its kind and its
 * parameter string.
 */
module StorageProviders {
  import opened Wrappers
  import opened JavaString

  datatype StorageKind = Local | S3(parameters: string) | MinIO(parameters: string)

  /** A connection string that names the local file system: blank, or "local" in any case. */
  predicate NamesLocal(s: string) {
    Trim(s) == "" || EqualsIgnoreCase(Trim(s), "local")
  }

  /**
   * `getStorageProvider`: `None` stands for a null connection string. The
   * prefixes are matched case-sensitively on the untrimmed string; the
   * parameters after them are trimmed.
   */
  function StorageProviderFor(connectionString: Option<string>): (r: Result<StorageKind>)
    ensures connectionString.None? ==> r == Ok(Local)
    ensures r.Ok? && !r.value.Local? ==> connectionString.Some? && !NamesLocal(connectionString.value)
    ensures r.Err? ==> connectionString.Some? && r.error == IllegalArgument("Invalid connection string: " + connectionString.value)
  {
    match connectionString
    case None => Ok(Local)
    case Some(s) =>
      if NamesLocal(s) then Ok(Local)
      else if StartsWith(s, "S3:") then Ok(S3(Trim(s[3..])))
      else if StartsWith(s, "MINIO:") then Ok(MinIO(Trim(s[6..])))
      else Err(IllegalArgument("Invalid connection string: " + s))
  }

  /** A string whose first non-blank character is not an 'l' does not name the local file system. */
  lemma NotLocal(s: string)
    requires |TrimStart(s)| > 0 && UpperAscii(TrimStart(s)[0]) != 'L'
    ensures !NamesLocal(s)
  {
    var t := TrimStart(s);
    assert |TrimEnd(t)| > 0 && TrimEnd(t)[0] == t[0];
  }

  /** "S3:" followed by anything selects S3 with the rest, trimmed, as parameters. */
  lemma S3Selected(p: string)
    ensures StorageProviderFor(Some("S3:" + p)) == Ok(S3(Trim(p)))
  {
    var s := "S3:" + p;
    assert TrimStart(s) == s;
    NotLocal(s);
    assert s[..3] == "S3:" && s[3..] == p;
  }

  /** "MINIO:" followed by anything selects MinIO with the rest, trimmed, as parameters. */
  lemma MinIOSelected(p: string)
    ensures StorageProviderFor(Some("MINIO:" + p)) == Ok(MinIO(Trim(p)))
  {
    var s := "MINIO:" + p;
    assert TrimStart(s) == s;
    NotLocal(s);
    assert s[..6] == "MINIO:" && s[6..] == p;
    NotStartsWith(s, "S3:");
  }

  /** A blank string, like a null one, selects the local file system. */
  lemma BlankIsLocal(s: string)
    requires forall i :: 0 <= i < |s| ==> IsTrimmed(s[i])
    ensures StorageProviderFor(Some(s)) == Ok(Local)
  {
    TrimShape(s);
  }

  /** No prefix after a blank: such a string is rejected unless it names the local file system. */
  lemma BlankFirstRejected(s: string)
    requires |s| > 0 && IsTrimmed(s[0]) && !NamesLocal(s)
    ensures StorageProviderFor(Some(s)) == Err(IllegalArgument("Invalid connection string: " + s))
  {
    NotStartsWith(s, "S3:");
    NotStartsWith(s, "MINIO:");
  }

  /** The prefixes are not trimmed away: a space in front of "S3:" makes the string invalid. */
  lemma SpacedPrefixRejected(p: string)
    ensures StorageProviderFor(Some(" S3:" + p)) == Err(IllegalArgument("Invalid connection string: " + (" S3:" + p)))
  {
    var s, t := " S3:" + p, "S3:" + p;
    assert s[0] == ' ' && s[1..] == t;
    assert t[0] == 'S';
    assert TrimStart(t) == t;
    assert TrimStart(s) == t;
    NotLocal(s);
    BlankFirstRejected(s);
  }


  // ----------------------------------------------------------------- parseConfig

  /** One segment cut at its first '=', key and value trimmed; `None` when it holds no '='. */
  function SegmentEntry(segment: string): (r: Option<(string, string)>)
    ensures r.None? <==> '=' !in segment
  {
    var keyValue := SplitLimit2(segment, '=');
    if |keyValue| == 2 then Some((Trim(keyValue[0]), Trim(keyValue[1]))) else None
  }

  /** A segment with no '=' before the first one keeps every later '=' in its value. */
  lemma SegmentAtFirstEquals(key: string, value: string)
    requires '=' !in key
    ensures SegmentEntry(key + "=" + value) == Some((Trim(key), Trim(value)))
  {
    IndexOfAfter(key, '=', value);
    var s := key + "=" + value;
    assert s[..|key|] == key && s[|key| + 1..] == value;
  }

  /** The map obtained by putting every present entry in order, a later key overriding an earlier one. */
  function PutAll(entries: seq<Option<(string, string)>>): map<string, string>
  {
    if |entries| == 0 then map[]
    else
      var m := PutAll(entries[..|entries| - 1]);
      match entries[|entries| - 1]
      case None => m
      case Some(entry) => m[entry.0 := entry.1]
  }

  predicate Carries(entry: Option<(string, string)>, key: string) {
    entry.Some? && entry.value.0 == key
  }

  /** A key is in the map exactly when some entry carries it. */
  lemma {:induction false} PutAllKeys(entries: seq<Option<(string, string)>>, key: string)
    ensures key in PutAll(entries) <==> exists i :: 0 <= i < |entries| && Carries(entries[i], key)
  {
    if |entries| > 0 {
      var n := |entries| - 1;
      var init := entries[..n];
      PutAllKeys(init, key);
      if exists i :: 0 <= i < n && Carries(init[i], key) {
        var i :| 0 <= i < n && Carries(init[i], key);
        assert Carries(entries[i], key);
      }
      if exists i :: 0 <= i < |entries| && Carries(entries[i], key) {
        var i :| 0 <= i < |entries| && Carries(entries[i], key);
        if i < n {
          assert Carries(init[i], key);
        }
      }
    }
  }

  /** A key's value comes from the last entry that carries it. */
  lemma {:induction false} PutAllLastWins(entries: seq<Option<(string, string)>>, key: string, i: int)
    requires 0 <= i < |entries| && Carries(entries[i], key)
    requires forall j :: i < j < |entries| ==> !Carries(entries[j], key)
    ensures key in PutAll(entries) && PutAll(entries)[key] == entries[i].value.1
  {
    var n := |entries| - 1;
    if i < n {
      var init := entries[..n];
      assert !Carries(entries[n], key);
      forall j | i < j < n
        ensures !Carries(init[j], key)
      {
        assert init[j] == entries[j];
      }
      PutAllLastWins(init, key, i);
    }
  }

  /** The entry of every segment, in order. */
  function SegmentEntries(segments: seq<string>): (r: seq<Option<(string, string)>>)
    ensures |r| == |segments| && forall i :: 0 <= i < |segments| ==> r[i] == SegmentEntry(segments[i])
  {
    seq(|segments|, i requires 0 <= i < |segments| => SegmentEntry(segments[i]))
  }

  /** The map `parseConfig` builds from `segments`. */
  function Entries(segments: seq<string>): map<string, string> {
    PutAll(SegmentEntries(segments))
  }

  /**
   * `parseConfig`: splits the string on ';' (dropping trailing empty
   * segments), and puts the trimmed key and value of every segment that
   * has a '=' into a map.
   */
  method ParseConfig(config: string) returns (configMap: map<string, string>)
    ensures configMap == Entries(Split(config, ';'))
  {
    var pairs := Split(config, ';');
    ghost var entries := SegmentEntries(pairs);
    configMap := map[];
    for i := 0 to |pairs|
      invariant configMap == PutAll(entries[..i])
    {
      var keyValue := SplitLimit2(pairs[i], '=');
      assert entries[..i + 1][..i] == entries[..i];
      if |keyValue| == 2 {
        configMap := configMap[Trim(keyValue[0]) := Trim(keyValue[1])];
      }
    }
    assert entries[..|pairs|] == entries;
  }

  /** The `bucketName` both providers take from their parameters. */
  function BucketName(parameters: string): (r: Option<string>)
    ensures r.Some? <==> "bucketName" in Entries(Split(parameters, ';'))
  {
    var configMap := Entries(Split(parameters, ';'));
    if "bucketName" in configMap then Some(configMap["bucketName"]) else None
  }

  // ----------------------------------------------------------------- writing parameters

  /** A parameter string written from key/value pairs, "k1=v1;k2=v2;...". */
  function ParameterString(entries: seq<(string, string)>): string {
    Join(Segments(entries), ';')
  }

  function Segments(entries: seq<(string, string)>): (r: seq<string>)
    ensures |r| == |entries| && forall i :: 0 <= i < |entries| ==> r[i] == entries[i].0 + "=" + entries[i].1
  {
    seq(|entries|, i requires 0 <= i < |entries| => entries[i].0 + "=" + entries[i].1)
  }

  function Present(entries: seq<(string, string)>): (r: seq<Option<(string, string)>>)
    ensures |r| == |entries| && forall i :: 0 <= i < |entries| ==> r[i] == Some(entries[i])
  {
    seq(|entries|, i requires 0 <= i < |entries| => Some(entries[i]))
  }

  /** Pairs that survive being written and parsed back. */
  predicate Writable(entries: seq<(string, string)>) {
    forall i :: 0 <= i < |entries| ==>
      && ';' !in entries[i].0 && '=' !in entries[i].0 && Trim(entries[i].0) == entries[i].0
      && ';' !in entries[i].1 && Trim(entries[i].1) == entries[i].1
  }

  /** Written segments hold no ';', and none is empty. */
  lemma SegmentsSeparable(entries: seq<(string, string)>)
    requires Writable(entries)
    ensures forall i :: 0 <= i < |entries| ==> ';' !in Segments(entries)[i] && Segments(entries)[i] != ""
  {
    forall i | 0 <= i < |entries|
      ensures ';' !in Segments(entries)[i] && Segments(entries)[i] != ""
    {
      var segment := Segments(entries)[i];
      assert segment == entries[i].0 + "=" + entries[i].1;
      assert segment[|entries[i].0|] == '=';
    }
  }

  /** Written parameters split back into their segments. */
  lemma SplitParameterString(entries: seq<(string, string)>)
    requires |entries| >= 1 && Writable(entries)
    ensures Split(ParameterString(entries), ';') == Segments(entries)
  {
    SegmentsSeparable(entries);
    SplitJoin(Segments(entries), ';');
  }

  /** Every written segment gives back its pair. */
  lemma SegmentsReadBack(entries: seq<(string, string)>)
    requires Writable(entries)
    ensures SegmentEntries(Segments(entries)) == Present(entries)
  {
    forall i | 0 <= i < |entries|
      ensures SegmentEntries(Segments(entries))[i] == Present(entries)[i]
    {
      SegmentAtFirstEquals(entries[i].0, entries[i].1);
    }
  }

  /**
   * Parameters written from trimmed pairs, with no ';' anywhere and no '='
   * in a key, parse back to the map the pairs make: exactly the keys
   * written, each with the value of its last pair.
   */
  lemma ParseWrittenParameters(entries: seq<(string, string)>)
    requires |entries| >= 1 && Writable(entries)
    ensures Entries(Split(ParameterString(entries), ';')) == PutAll(Present(entries))
    ensures forall k :: k in Entries(Split(ParameterString(entries), ';')) <==>
                          exists i :: 0 <= i < |entries| && entries[i].0 == k
  {
    SplitParameterString(entries);
    SegmentsReadBack(entries);
    PresentKeys(entries);
  }

  /** The map of the pairs holds exactly the keys written. */
  lemma PresentKeys(entries: seq<(string, string)>)
    ensures forall k :: k in PutAll(Present(entries)) <==> exists i :: 0 <= i < |entries| && entries[i].0 == k
  {
    forall k
      ensures k in PutAll(Present(entries)) <==> exists i :: 0 <= i < |entries| && entries[i].0 == k
    {
      PutAllKeys(Present(entries), k);
      if exists i :: 0 <= i < |entries| && entries[i].0 == k {
        var i :| 0 <= i < |entries| && entries[i].0 == k;
        assert Carries(Present(entries)[i], k);
      }
    }
  }
}
