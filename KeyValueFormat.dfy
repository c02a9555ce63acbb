/**
 * The text format shared by every sink and source of the engine: one record
 * per line, written as `serialize(key) + " " + serialize(value)` and read
 * back by cutting the line at its first space.
 */
module KeyValueFormat {
  import opened Wrappers
  import opened JavaString

  /** A `Serializer<T>` together with the matching `Deserializer<T>`. */
  datatype Codec<!T> = Codec(serialize: T -> string, deserialize: string -> T)

  /** The line `FileSink.put` and `ZipFileSink.put` write for one record. */
  function FormatLine<K, V>(key: K, value: V, kc: Codec<K>, vc: Codec<V>): string {
    kc.serialize(key) + " " + vc.serialize(value)
  }

  /** The lines a sink holds after the records `pairs` were put, in put order. */
  function Lines<K, V>(pairs: seq<(K, V)>, kc: Codec<K>, vc: Codec<V>): (lines: seq<string>)
    ensures |lines| == |pairs|
    ensures forall i :: 0 <= i < |pairs| ==> lines[i] == FormatLine(pairs[i].0, pairs[i].1, kc, vc)
  {
    if |pairs| == 0 then [] else Lines(pairs[..|pairs| - 1], kc, vc) + [FormatLine(pairs[|pairs| - 1].0, pairs[|pairs| - 1].1, kc, vc)]
  }

  lemma LinesAppend<K, V>(a: seq<(K, V)>, b: seq<(K, V)>, kc: Codec<K>, vc: Codec<V>)
    ensures Lines(a + b, kc, vc) == Lines(a, kc, vc) + Lines(b, kc, vc)
  {
  }

  /**
   * `line.split(" ", 2)` followed by the length check of
   * `KeyValueFileIterator.next`: a line without a space is rejected.
   */
  function SplitLine(line: string): (r: Result<(string, string)>)
    ensures r.Err? <==> ' ' !in line
    ensures r.Err? ==> r.error == IllegalArgument("Invalid key-value pair: " + line)
    ensures r.Ok? ==> ' ' !in r.value.0 && line == r.value.0 + " " + r.value.1
  {
    var parts := SplitLimit2(line, ' ');
    if |parts| < 2 then Err(IllegalArgument("Invalid key-value pair: " + line))
    else Ok((parts[0], parts[1]))
  }

  function ParseLine<K, V>(line: string, kc: Codec<K>, vc: Codec<V>): (r: Result<(K, V)>)
    ensures r.Err? <==> ' ' !in line
    ensures r.Err? ==> r.error == IllegalArgument("Invalid key-value pair: " + line)
  {
    match SplitLine(line)
    case Err(e) => Err(e)
    case Ok((ks, vs)) => Ok((kc.deserialize(ks), vc.deserialize(vs)))
  }

  /**
   * Every line of a file parsed in order, failing at the first line without
   * a space with the exception that line raises.
   */
  function ReadAll<K, V>(lines: seq<string>, kc: Codec<K>, vc: Codec<V>): (r: Result<seq<(K, V)>>)
    ensures r.Ok? <==> forall i :: 0 <= i < |lines| ==> ' ' in lines[i]
    ensures r.Ok? ==> |r.value| == |lines|
    ensures r.Ok? ==> forall i :: 0 <= i < |lines| ==> ParseLine(lines[i], kc, vc) == Ok(r.value[i])
    ensures r.Err? ==> exists i :: 0 <= i < |lines| && FirstBadLine(lines, i) && r.error == BadLine(lines[i])
  {
    if |lines| == 0 then Ok([])
    else
      match ParseLine(lines[0], kc, vc)
      case Err(e) =>
        assert FirstBadLine(lines, 0);
        Err(e)
      case Ok(p) =>
        match ReadAll(lines[1..], kc, vc)
        case Err(e) =>
          var i :| 0 <= i < |lines[1..]| && FirstBadLine(lines[1..], i) && e == BadLine(lines[1..][i]);
          assert FirstBadLine(lines, i + 1);
          Err(e)
        case Ok(rest) => Ok([p] + rest)
  }

  /** The exception `KeyValueFileIterator.next` throws on a line without a space. */
  function BadLine(line: string): JavaError {
    IllegalArgument("Invalid key-value pair: " + line)
  }

  /**
   * What `close` of a sorting sink throws when a dump does not read back:
   * the reader's exception for a line without a space, wrapped in a
   * RuntimeException.
   */
  ghost predicate ReadBackFailure(e: JavaError) {
    exists line :: ' ' !in line && e == Wrap(BadLine(line))
  }

  /** The exception of a reader that met a line without a space. */
  ghost predicate BadLineError(e: JavaError) {
    exists line :: ' ' !in line && e == BadLine(line)
  }

  /** Line `i` is the first of `lines` without a space. */
  predicate FirstBadLine(lines: seq<string>, i: int) {
    && 0 <= i < |lines| && ' ' !in lines[i]
    && forall j :: 0 <= j < i ==> ' ' in lines[j]
  }

  /**
   * A text that `BufferedReader.readLine` gives back whole: it holds neither
   * of the line terminators '\n' and '\r'.
   */
  predicate OneLine(text: string) {
    '\n' !in text && '\r' !in text
  }

  /**
   * Codecs for which the file format is lossless: a serialized key never
   * contains a space, no serialized text contains a line terminator (so a
   * written line is read back as one line), and deserializing what was
   * serialized gives it back.
   */
  ghost predicate LineSafe<K(!new), V(!new)>(kc: Codec<K>, vc: Codec<V>) {
    && (forall k :: ' ' !in kc.serialize(k))
    && (forall k :: OneLine(kc.serialize(k)))
    && (forall v :: OneLine(vc.serialize(v)))
    && (forall k :: kc.deserialize(kc.serialize(k)) == k)
    && (forall v :: vc.deserialize(vc.serialize(v)) == v)
  }

  /**
   * Whatever the codecs, a written line always has a space, so the parser
   * accepts it; when the key text has no space the exact key text and value
   * text come back.
   */
  lemma LineTextRoundTrip(keyText: string, valueText: string)
    requires ' ' !in keyText
    ensures SplitLine(keyText + " " + valueText) == Ok((keyText, valueText))
  {
    var line := keyText + " " + valueText;
    IndexOfAfter(keyText, ' ', valueText);
    assert line == keyText + [' '] + valueText;
    assert line[..|keyText|] == keyText;
    assert line[|keyText| + 1..] == valueText;
  }

  /** A key text with spaces is cut at its first space: the rest moves into the value. */
  lemma LineWithSpacedKey(keyText: string, valueText: string)
    requires ' ' in keyText
    ensures SplitLine(keyText + " " + valueText).Ok?
    ensures SplitLine(keyText + " " + valueText).value.0 != keyText
  {
  }

  /**
   * With line-safe codecs every written line is a single physical line, so
   * the lines a reader sees are exactly the lines the sink wrote.
   */
  lemma WrittenLinesAreOneLine<K(!new), V(!new)>(pairs: seq<(K, V)>, kc: Codec<K>, vc: Codec<V>)
    requires LineSafe(kc, vc)
    ensures forall i :: 0 <= i < |pairs| ==> OneLine(Lines(pairs, kc, vc)[i])
  {
    var lines := Lines(pairs, kc, vc);
    forall i | 0 <= i < |pairs| ensures OneLine(lines[i]) {
      var kt, vt := kc.serialize(pairs[i].0), vc.serialize(pairs[i].1);
      assert OneLine(kt) && OneLine(vt);
      assert lines[i] == kt + " " + vt;
    }
  }

  /** A value text holding a line break is not line-safe: reading splits the record. */
  lemma BrokenValueNotLineSafe<K(!new)>(kc: Codec<K>, vc: Codec<string>)
    requires vc.serialize("a\nb") == "a\nb"
    ensures !LineSafe(kc, vc)
  {
    assert '\n' in vc.serialize("a\nb") by { assert "a\nb"[1] == '\n'; }
  }

  // ------------------------------------------------------------ physical lines

  /** Where the first line of `s` ends: at its first '\n' or '\r', or at the end of `s`. */
  function LineEnd(s: string): (n: nat)
    ensures n <= |s|
  {
    if |s| == 0 || s[0] == '\n' || s[0] == '\r' then 0 else 1 + LineEnd(s[1..])
  }

  /** No character before the line's end is a terminator, and the one at its end is. */
  lemma {:induction false} LineEndIs(s: string)
    ensures forall i :: 0 <= i < LineEnd(s) ==> s[i] != '\n' && s[i] != '\r'
    ensures LineEnd(s) < |s| ==> s[LineEnd(s)] == '\n' || s[LineEnd(s)] == '\r'
  {
    if |s| > 0 && s[0] != '\n' && s[0] != '\r' {
      LineEndIs(s[1..]);
      forall i | 0 < i < LineEnd(s) ensures s[i] != '\n' && s[i] != '\r' {
        assert s[i] == s[1..][i - 1];
      }
    }
  }

  /**
   * The lines `BufferedReader.readLine` returns for the text `s`, in order:
   * a line ends at "\n", "\r" or "\r\n", and text after the last terminator
   * is one more line.
   */
  function ReadLines(s: string): seq<string>
    decreases |s|
  {
    if |s| == 0 then []
    else if LineEnd(s) == |s| then [s]
    else [s[..LineEnd(s)]] + ReadLines(s[LineEnd(s) + TerminatorLength(s, LineEnd(s))..])
  }

  /** The terminator at `n` is "\r\n" (two characters) or a lone '\n' or '\r'. */
  function TerminatorLength(s: string, n: nat): (k: nat)
    requires n < |s|
    ensures n + k <= |s|
  {
    if s[n] == '\r' && n + 1 < |s| && s[n + 1] == '\n' then 2 else 1
  }

  /**
   * The text a `BufferedWriter` holds after writing each of `texts` followed
   * by `newLine()`, which is "\n".
   */
  function Content(texts: seq<string>): (s: string)
    ensures |s| == 0 || s[|s| - 1] == '\n'
  {
    if |texts| == 0 then "" else Content(texts[..|texts| - 1]) + texts[|texts| - 1] + "\n"
  }

  /** The lines a reader gets back from a file written as `texts`, one text per line written. */
  function FileLines(texts: seq<string>): seq<string> {
    ReadLines(Content(texts))
  }

  /** Text after a terminated first line does not move where that line ends, nor its terminator. */
  lemma {:induction false} LineEndAppend(a: string, b: string)
    requires LineEnd(a) < |a| && a[|a| - 1] == '\n'
    ensures LineEnd(a + b) == LineEnd(a)
    ensures TerminatorLength(a + b, LineEnd(a)) == TerminatorLength(a, LineEnd(a))
  {
    if a[0] != '\n' && a[0] != '\r' {
      assert (a + b)[1..] == a[1..] + b;
      LineEndAppend(a[1..], b);
    }
  }

  /** A line without a terminator, followed by a terminator, ends there. */
  lemma {:induction false} LineEndOfOneLine(t: string, rest: string)
    requires OneLine(t) && |rest| > 0 && (rest[0] == '\n' || rest[0] == '\r')
    ensures LineEnd(t + rest) == |t|
  {
    if |t| > 0 {
      assert t[0] in t;
      assert (t + rest)[1..] == t[1..] + rest;
      LineEndOfOneLine(t[1..], rest);
    }
  }

  /** A text ending in '\n' has a terminator in it. */
  lemma TerminatedLineEnds(a: string)
    requires |a| > 0 && a[|a| - 1] == '\n'
    ensures LineEnd(a) < |a|
  {
    LineEndIs(a);
  }

  lemma SliceAppend<T>(a: seq<T>, b: seq<T>, i: nat)
    requires i <= |a|
    ensures (a + b)[..i] == a[..i] && (a + b)[i..] == a[i..] + b
  {
  }

  lemma ReadLinesStep(s: string)
    ensures 0 < |s| && LineEnd(s) < |s| ==>
      ReadLines(s) == [s[..LineEnd(s)]] + ReadLines(s[LineEnd(s) + TerminatorLength(s, LineEnd(s))..])
  {
  }

  /** The first line of a terminated text, and what follows its terminator. */
  lemma FirstLineOf(a: string, b: string) returns (first: string, rest: string)
    requires |a| > 0 && a[|a| - 1] == '\n'
    ensures |rest| < |a| && (|rest| == 0 || rest[|rest| - 1] == '\n')
    ensures ReadLines(a) == [first] + ReadLines(rest)
    ensures ReadLines(a + b) == [first] + ReadLines(rest + b)
  {
    var n := LineEnd(a);
    TerminatedLineEnds(a);
    var k := TerminatorLength(a, n);
    first, rest := a[..n], a[n + k..];
    ReadLinesStep(a);
    FirstLineAppended(a, b, n, k);
  }

  /** Text after a terminated first line is read after that line's rest. */
  lemma FirstLineAppended(a: string, b: string, n: nat, k: nat)
    requires |a| > 0 && a[|a| - 1] == '\n' && n == LineEnd(a) < |a| && k == TerminatorLength(a, n)
    ensures ReadLines(a + b) == [a[..n]] + ReadLines(a[n + k..] + b)
  {
    LineEndAppend(a, b);
    ReadLinesStep(a + b);
    SliceAppend(a, b, n);
    SliceAppend(a, b, n + k);
  }

  /** A text whose last line is terminated reads as its own lines, then the lines of what follows. */
  lemma {:induction false} ReadLinesAppend(a: string, b: string)
    requires |a| == 0 || a[|a| - 1] == '\n'
    ensures ReadLines(a + b) == ReadLines(a) + ReadLines(b)
    decreases |a|
  {
    if |a| == 0 {
      assert a + b == b;
    } else {
      var first, rest := FirstLineOf(a, b);
      ReadLinesAppend(rest, b);
      ConsAppend(first, ReadLines(rest), ReadLines(b), ReadLines(rest + b));
    }
  }

  lemma ConsAppend<T>(x: T, a: seq<T>, b: seq<T>, ab: seq<T>)
    requires ab == a + b
    ensures [x] + ab == ([x] + a) + b
  {
  }

  /** A text without a line terminator, once written, reads back as that one line. */
  lemma ReadLinesOneLine(t: string)
    requires OneLine(t)
    ensures ReadLines(t + "\n") == [t]
  {
    var s := t + "\n";
    LineEndOfOneLine(t, "\n");
    ReadLinesStep(s);
    assert s[..|t|] == t;
    assert s[|t| + 1..] == [];
  }

  /** Writing one more text adds the lines it reads back as. */
  lemma FileLinesSnoc(texts: seq<string>, t: string)
    ensures FileLines(texts + [t]) == FileLines(texts) + ReadLines(t + "\n")
  {
    assert (texts + [t])[..|texts|] == texts;
    assert Content(texts + [t]) == Content(texts) + (t + "\n");
    ReadLinesAppend(Content(texts), t + "\n");
  }

  /** Texts without line terminators are read back exactly as written. */
  lemma {:induction false} FileLinesOneLine(texts: seq<string>)
    requires forall i :: 0 <= i < |texts| ==> OneLine(texts[i])
    ensures FileLines(texts) == texts
  {
    if |texts| > 0 {
      var init, last := texts[..|texts| - 1], texts[|texts| - 1];
      assert forall i :: 0 <= i < |init| ==> init[i] == texts[i];
      FileLinesOneLine(init);
      FileLinesSnoc(init, last);
      ReadLinesOneLine(last);
      assert texts == init + [last];
    }
  }

  // ------------------------------------------------------- reading records back

  /** Every line has a space: the parser accepts them all. */
  predicate Spaced(lines: seq<string>) {
    forall i :: 0 <= i < |lines| ==> ' ' in lines[i]
  }

  lemma SpacedAppend(a: seq<string>, b: seq<string>)
    ensures Spaced(a + b) <==> Spaced(a) && Spaced(b)
  {
    if Spaced(a + b) {
      forall i | 0 <= i < |a| ensures ' ' in a[i] {
        assert (a + b)[i] == a[i];
      }
      forall i | 0 <= i < |b| ensures ' ' in b[i] {
        assert (a + b)[|a| + i] == b[i];
      }
    }
  }

  /** The lines a reader gets back for one record a sink wrote. */
  function RecordLines<K, V>(p: (K, V), kc: Codec<K>, vc: Codec<V>): seq<string> {
    ReadLines(FormatLine(p.0, p.1, kc, vc) + "\n")
  }

  /** Every record of `pairs` reads back: each line it is read back as has a space. */
  ghost predicate Readable<K, V>(pairs: seq<(K, V)>, kc: Codec<K>, vc: Codec<V>) {
    forall p :: p in pairs ==> Spaced(RecordLines(p, kc, vc))
  }

  /** Whether records read back depends on which records there are, not on their order. */
  lemma ReadableSameRecords<K, V>(a: seq<(K, V)>, b: seq<(K, V)>, kc: Codec<K>, vc: Codec<V>)
    requires multiset(a) == multiset(b)
    ensures Readable(a, kc, vc) <==> Readable(b, kc, vc)
  {
    forall p ensures p in a <==> p in b {
      assert p in a <==> p in multiset(a);
      assert p in b <==> p in multiset(b);
    }
  }

  /** `Readable` for a bag of records. */
  ghost predicate ReadableBag<K, V>(records: multiset<(K, V)>, kc: Codec<K>, vc: Codec<V>) {
    forall p :: p in records ==> Spaced(RecordLines(p, kc, vc))
  }

  lemma ReadableIsBag<K, V>(pairs: seq<(K, V)>, kc: Codec<K>, vc: Codec<V>)
    ensures Readable(pairs, kc, vc) <==> ReadableBag(multiset(pairs), kc, vc)
  {
    forall p ensures p in pairs <==> p in multiset(pairs) {
    }
  }

  lemma ReadableAppend<K, V>(a: seq<(K, V)>, b: seq<(K, V)>, kc: Codec<K>, vc: Codec<V>)
    ensures Readable(a + b, kc, vc) <==> Readable(a, kc, vc) && Readable(b, kc, vc)
  {
    forall p ensures p in a + b <==> p in a || p in b {
    }
  }

  /**
   * When column `j` of `shares` is approved exactly when each of its cells
   * reads back, every column is approved exactly when every cell reads back.
   */
  lemma ReadableByColumn<K, V>(columns: seq<bool>, shares: seq<seq<seq<(K, V)>>>, kc: Codec<K>, vc: Codec<V>)
    requires forall k :: 0 <= k < |shares| ==> |columns| <= |shares[k]|
    requires forall j :: 0 <= j < |columns| ==>
               (columns[j] <==> forall k :: 0 <= k < |shares| ==> Readable(shares[k][j], kc, vc))
    ensures (forall j :: 0 <= j < |columns| ==> columns[j])
        <==> forall k, j :: 0 <= k < |shares| && 0 <= j < |columns| ==> Readable(shares[k][j], kc, vc)
  {
    if forall j :: 0 <= j < |columns| ==> columns[j] {
      forall k, j | 0 <= k < |shares| && 0 <= j < |columns|
        ensures Readable(shares[k][j], kc, vc)
      {
        assert columns[j];
      }
    } else {
      var j :| 0 <= j < |columns| && !columns[j];
      var k :| 0 <= k < |shares| && !Readable(shares[k][j], kc, vc);
    }
  }

  /** A line without a space that some record of `pairs` reads back as, when they do not all read back. */
  ghost function UnreadLine<K, V>(pairs: seq<(K, V)>, kc: Codec<K>, vc: Codec<V>): (line: string)
    requires !Readable(pairs, kc, vc)
    ensures ' ' !in line
    ensures exists p :: p in pairs && line in RecordLines(p, kc, vc)
  {
    var p :| p in pairs && !Spaced(RecordLines(p, kc, vc));
    var i :| 0 <= i < |RecordLines(p, kc, vc)| && ' ' !in RecordLines(p, kc, vc)[i];
    RecordLines(p, kc, vc)[i]
  }

  /** The lines a file written from `pairs` reads back as, record after record. */
  lemma FileLinesOfLines<K, V>(pairs: seq<(K, V)>, p: (K, V), kc: Codec<K>, vc: Codec<V>)
    ensures FileLines(Lines(pairs + [p], kc, vc)) == FileLines(Lines(pairs, kc, vc)) + RecordLines(p, kc, vc)
  {
    assert (pairs + [p])[..|pairs|] == pairs;
    FileLinesSnoc(Lines(pairs, kc, vc), FormatLine(p.0, p.1, kc, vc));
  }

  /**
   * What a sink wrote parses back exactly when every record it wrote reads
   * back: a key or value text holding a line terminator splits its record
   * into several lines, and a piece without a space is rejected.
   */
  lemma {:induction false} WrittenLinesParse<K, V>(pairs: seq<(K, V)>, kc: Codec<K>, vc: Codec<V>)
    ensures ReadAll(FileLines(Lines(pairs, kc, vc)), kc, vc).Ok? <==> Readable(pairs, kc, vc)
  {
    if |pairs| > 0 {
      var init, last := pairs[..|pairs| - 1], pairs[|pairs| - 1];
      assert pairs == init + [last];
      WrittenLinesParse(init, kc, vc);
      FileLinesOfLines(init, last, kc, vc);
      SpacedAppend(FileLines(Lines(init, kc, vc)), RecordLines(last, kc, vc));
      ReadableAppend(init, [last], kc, vc);
    }
  }

  /** With line-safe codecs every record is read back as the one line written for it. */
  lemma LineSafeReadsBack<K(!new), V(!new)>(pairs: seq<(K, V)>, kc: Codec<K>, vc: Codec<V>)
    requires LineSafe(kc, vc)
    ensures FileLines(Lines(pairs, kc, vc)) == Lines(pairs, kc, vc)
    ensures Readable(pairs, kc, vc)
  {
    WrittenLinesAreOneLine(pairs, kc, vc);
    FileLinesOneLine(Lines(pairs, kc, vc));
    forall p | p in pairs
      ensures Spaced(RecordLines(p, kc, vc))
    {
      var t := FormatLine(p.0, p.1, kc, vc);
      WrittenLinesAreOneLine([p], kc, vc);
      assert Lines([p], kc, vc)[0] == t;
      ReadLinesOneLine(t);
      assert t[|kc.serialize(p.0)|] == ' ';
    }
  }

  /** Reading back what a sink wrote with line-safe codecs gives the records back. */
  lemma {:induction false} ReadAllLines<K(!new), V(!new)>(pairs: seq<(K, V)>, kc: Codec<K>, vc: Codec<V>)
    requires LineSafe(kc, vc)
    ensures ReadAll(FileLines(Lines(pairs, kc, vc)), kc, vc) == Ok(pairs)
  {
    LineSafeReadsBack(pairs, kc, vc);
    var lines := Lines(pairs, kc, vc);
    forall i | 0 <= i < |pairs|
      ensures ParseLine(lines[i], kc, vc) == Ok(pairs[i])
    {
      LineTextRoundTrip(kc.serialize(pairs[i].0), vc.serialize(pairs[i].1));
    }
    var r := ReadAll(lines, kc, vc);
    assert r.Ok?;
    assert r.value == pairs;
  }

  /** Strings written and read as they are. */
  function PlainText(): Codec<string> {
    Codec(s => s, s => s)
  }

  /** Two lines written one after the other read back as those two lines. */
  lemma ReadTwoLines(x: string, y: string)
    requires OneLine(x) && OneLine(y)
    ensures ReadLines(x + "\n" + y + "\n") == [x, y]
  {
    ReadLinesOneLine(x);
    ReadLinesOneLine(y);
    ReadLinesAppend(x + "\n", y + "\n");
    assert x + "\n" + y + "\n" == (x + "\n") + (y + "\n");
  }

  /** A file holding the one record `(key, value)` reads back as the lines of that record. */
  lemma OneRecordFile(key: string, value: string, line: string)
    requires line == key + " " + value + "\n"
    ensures FileLines(Lines([(key, value)], PlainText(), PlainText())) == ReadLines(line)
  {
    var t := PlainText();
    FileLinesOfLines([], (key, value), t, t);
    assert [] + [(key, value)] == [(key, value)];
    assert FileLines(Lines([], t, t)) == [];
    assert FormatLine(key, value, t, t) == key + " " + value;
  }

  /**
   * A value holding '\n' is written as two lines; the second, "b", has no
   * space, and reading it back fails on it.
   */
  lemma BrokenValueFails()
    ensures FileLines(Lines([("k", "a\nb")], PlainText(), PlainText())) == ["k a", "b"]
    ensures ReadAll(FileLines(Lines([("k", "a\nb")], PlainText(), PlainText())), PlainText(), PlainText())
            == Err(BadLine("b"))
  {
    OneRecordFile("k", "a\nb", "k a" + "\n" + "b" + "\n");
    ReadTwoLines("k a", "b");
    assert ' ' in "k a" && ' ' !in "b";
    assert FirstBadLine(["k a", "b"], 1);
  }

  /**
   * A value holding "\n " is written as two lines that both have a space:
   * the record silently reads back as two records.
   */
  lemma SpacedBreakSplits()
    ensures ReadAll(FileLines(Lines([("k", "a\n b")], PlainText(), PlainText())), PlainText(), PlainText())
            == Ok([("k", "a"), ("", "b")])
  {
    var t := PlainText();
    OneRecordFile("k", "a\n b", "k a" + "\n" + " b" + "\n");
    ReadTwoLines("k a", " b");
    PlainLine("k", "a", "k a");
    PlainLine("", "b", " b");
    ReadAllTwo("k a", " b", t, t, ("k", "a"), ("", "b"));
  }

  /** A plain-text line whose key has no space parses as that key and value. */
  lemma PlainLine(key: string, value: string, line: string)
    requires ' ' !in key && line == key + " " + value
    ensures ParseLine(line, PlainText(), PlainText()) == Ok((key, value))
  {
    LineTextRoundTrip(key, value);
  }

  lemma ReadAllTwo<K, V>(x: string, y: string, kc: Codec<K>, vc: Codec<V>, p: (K, V), q: (K, V))
    requires ParseLine(x, kc, vc) == Ok(p) && ParseLine(y, kc, vc) == Ok(q)
    ensures ReadAll([x, y], kc, vc) == Ok([p, q])
  {
    assert [y][1..] == [];
    assert ReadAll([y][1..], kc, vc) == Ok([]);
    assert [q] + [] == [q];
    assert [x, y][1..] == [y];
    assert [p] + [q] == [p, q];
  }
}
