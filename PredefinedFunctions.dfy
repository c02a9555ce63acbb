/**
 * `PredefinedFunctions`: the serializers, deserializers, comparator and hash
 * that jobs over string keys use. The two copies of the class agree on every
 * constant they both declare; only one of them adds the list codec.
 */
module PredefinedFunctions {
  import opened Wrappers
  import opened JavaInt
  import opened JavaString
  import opened Ordering
  import opened KeyValueFormat

  /** `STRING_SERIALIZER` and `STRING_DESERIALIZER`: both the identity. */
  function StringCodec(): (c: Codec<string>)
    ensures forall s :: c.serialize(s) == s && c.deserialize(s) == s
  {
    Codec(s => s, s => s)
  }

  /** `INTEGER_SERIALIZER`: `Integer.toString`. */
  function IntegerSerialize(n: int): (s: string)
    requires IsInt32(n)
    ensures |s| > 0 && ' ' !in s && ',' !in s
  {
    var s := IntToString(n);
    assert forall i :: 0 <= i < |s| ==> s[i] == '-' || IsDigit(s[i]);
    s
  }

  /** `INTEGER_DESERIALIZER`: `Integer.parseInt`; `None` stands for its NumberFormatException. */
  function IntegerDeserialize(s: string): (r: Option<int>)
    ensures r.Some? ==> IsInt32(r.value)
    ensures s == "" ==> r == None
  {
    ParseInt(s)
  }

  /** The integer codec gives back every `int` it writes. */
  lemma IntegerRoundTrip(n: int)
    requires IsInt32(n)
    ensures IntegerDeserialize(IntegerSerialize(n)) == Some(n)
  {
    IntStringRoundTrip(n);
  }

  /** `STRING_KEY_COMPARATOR`: `String.compareTo`. */
  function StringKeyComparator(a: string, b: string): int {
    CompareTo(a, b)
  }

  /**
   * The comparator orders strings as a comparator must, ties only equal
   * strings, and puts a proper prefix first.
   */
  lemma StringKeyComparatorValid()
    ensures ValidComparator(StringKeyComparator)
    ensures forall a, b :: StringKeyComparator(a, b) == 0 <==> a == b
    ensures forall a, b :: |a| < |b| && b[..|a|] == a ==> StringKeyComparator(a, b) < 0
  {
    forall a, b
      ensures StringKeyComparator(a, b) <= 0 || StringKeyComparator(b, a) <= 0
      ensures StringKeyComparator(a, b) == 0 <==> a == b
      ensures |a| < |b| && b[..|a|] == a ==> StringKeyComparator(a, b) < 0
    {
      CompareToAntisymmetric(a, b);
      CompareToZero(a, b);
      if |a| < |b| && b[..|a|] == a {
        CompareToPrefix(a, b);
      }
    }
    forall a, b, c | StringKeyComparator(a, b) <= 0 && StringKeyComparator(b, c) <= 0
      ensures StringKeyComparator(a, c) <= 0
    {
      CompareToTransitive(a, b, c);
    }
  }

  /** `STRING_KEY_HASH`: `String.hashCode`. */
  function StringKeyHash(s: string): int {
    HashCode(s)
  }

  /**
   * The hash is s[0]*31^(n-1) + ... + s[n-1] wrapped into `int`, so the
   * empty string hashes to 0.
   */
  lemma StringKeyHashIsPolynomial(s: string)
    ensures IsInt32(StringKeyHash(s))
    ensures StringKeyHash(s) == Wrap32(HashPolynomial(s))
    ensures s == "" ==> StringKeyHash(s) == 0
  {
    HashCodeIsWrappedPolynomial(s);
  }

  /** `LIST_SERIALIZER`: `String.join(",", list)`. */
  function ListSerialize(list: seq<string>): (s: string)
    ensures |list| == 1 ==> s == list[0]
    ensures |list| >= 2 ==> ',' in s
  {
    if |list| >= 2 then JoinHasSeparator(list, ','); Join(list, ',') else Join(list, ',')
  }

  /** `LIST_DESERIALIZER`: `List.of(str.split(","))`. */
  function ListDeserialize(s: string): (list: seq<string>)
    ensures forall i :: 0 <= i < |list| ==> ',' !in list[i]
    ensures ',' !in s ==> list == [s]
  {
    Split(s, ',')
  }

  /** The empty list is written as "" and read back as a list holding "". */
  lemma EmptyListReadsBack()
    ensures ListSerialize([]) == ""
    ensures ListDeserialize(ListSerialize([])) == [""]
  {
  }

  /** The lists the list codec gives back unchanged. */
  predicate ListRoundTrips(list: seq<string>) {
    && |list| >= 1
    && (forall i :: 0 <= i < |list| ==> ',' !in list[i])
    && (|list| == 1 || list[|list| - 1] != "")
  }

  /**
   * A list is read back as written exactly when it is non-empty, no element
   * holds a comma, and, with two elements or more, the last one is not empty.
   */
  lemma ListRoundTrip(list: seq<string>)
    ensures ListDeserialize(ListSerialize(list)) == list <==> ListRoundTrips(list)
  {
    var back := ListDeserialize(ListSerialize(list));
    if |list| >= 2 {
      var all := SplitAll(Join(list, ','), ',');
      assert back == DropTrailingEmpty(all);
      if ListRoundTrips(list) {
        SplitAllJoin(list, ',');
        assert all == list;
      }
      if back == list {
        assert list[|list| - 1] != "";
      }
    }
  }
}
