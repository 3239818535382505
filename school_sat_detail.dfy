/** SchoolSATDetail.swift: one school's SAT record and its JSON coding keys. */
module SchoolSATDetailModel {
  import opened Wrappers
  import opened Json

  /**
   * Every property is an optional string: counts and scores arrive as JSON
   * strings and are kept as strings, never parsed as numbers.
   */
  datatype SchoolSATDetail = SchoolSATDetail(
    id: Option<string>,
    name: Option<string>,
    testTakerCount: Option<string>,
    readingAvgScore: Option<string>,
    mathAvgScore: Option<string>,
    writingAvgScore: Option<string>)

  /**
   * The CodingKeys rename table, in case declaration order (which here is
   * also the property order, and the order decoding visits): id = "dbn",
   * name = "school_name", testTakerCount = "num_of_sat_test_takers",
   * readingAvgScore = "sat_critical_reading_avg_score",
   * mathAvgScore = "sat_math_avg_score", writingAvgScore = "sat_writing_avg_score".
   */
  const CodingKeys: seq<string> :=
    ["dbn", "school_name", "num_of_sat_test_takers", "sat_critical_reading_avg_score",
     "sat_math_avg_score", "sat_writing_avg_score"]

  /** No two properties share a key. */
  lemma CodingKeysAreDistinct()
    ensures Distinct(CodingKeys)
  {
  }

  /** The properties, in the order of CodingKeys. */
  function Fields(detail: SchoolSATDetail): (r: seq<Option<string>>)
    ensures |r| == |CodingKeys|
  {
    [detail.id, detail.name, detail.testTakerCount,
     detail.readingAvgScore, detail.mathAvgScore, detail.writingAvgScore]
  }

  function FromFields(values: seq<Option<string>>): (r: SchoolSATDetail)
    requires |values| == |CodingKeys|
    ensures Fields(r) == values
  {
    SchoolSATDetail(values[0], values[1], values[2], values[3], values[4], values[5])
  }

  /** The synthesized `init(from:)`. */
  function Decode(obj: Object): (r: Result<SchoolSATDetail>)
    ensures r.Ok? <==> FirstMismatch(obj, CodingKeys).None?
    ensures r.Err? ==> r.error == TypeMismatch(FirstMismatch(obj, CodingKeys).value)
    // the score strings are taken verbatim from their renamed keys; a missing key gives nil
    ensures r.Ok? ==> r.value == SchoolSATDetail(
      StringAt(obj, "dbn"), StringAt(obj, "school_name"), StringAt(obj, "num_of_sat_test_takers"),
      StringAt(obj, "sat_critical_reading_avg_score"), StringAt(obj, "sat_math_avg_score"),
      StringAt(obj, "sat_writing_avg_score"))
    // a number where a score string is expected is a decoding failure, not a parsed value
    ensures Mismatched(obj, "sat_math_avg_score") ==> r.Err?
  {
    var values :- DecodeEach(obj, CodingKeys);
    Ok(FromFields(values))
  }

  /** The synthesized `encode(to:)`. */
  function Encode(detail: SchoolSATDetail): (r: Object)
    ensures r.Keys <= set k | k in CodingKeys
    ensures forall k :: k in r ==> r[k].Str?
    ensures StringAt(r, "dbn") == detail.id
    ensures StringAt(r, "school_name") == detail.name
    ensures StringAt(r, "num_of_sat_test_takers") == detail.testTakerCount
    ensures StringAt(r, "sat_critical_reading_avg_score") == detail.readingAvgScore
    ensures StringAt(r, "sat_math_avg_score") == detail.mathAvgScore
    ensures StringAt(r, "sat_writing_avg_score") == detail.writingAvgScore
  {
    CodingKeysAreDistinct();
    var r := EncodeEach(map[], CodingKeys, Fields(detail));
    assert StringAt(r, CodingKeys[1]) == detail.name;
    assert StringAt(r, CodingKeys[2]) == detail.testTakerCount;
    assert StringAt(r, CodingKeys[3]) == detail.readingAvgScore;
    r
  }

  /** Encoding and then decoding a record gives it back. */
  lemma DecodeEncode(detail: SchoolSATDetail)
    ensures Decode(Encode(detail)) == Ok(detail)
  {
  }

  /** Decoding and re-encoding keeps exactly the string values under the coding keys. */
  lemma EncodeDecode(obj: Object, detail: SchoolSATDetail)
    requires Decode(obj) == Ok(detail)
    ensures Encode(detail) == Strings(obj, set k | k in CodingKeys)
  {
    SameStrings(Encode(detail), Strings(obj, set k | k in CodingKeys), set k | k in CodingKeys);
  }

  /** Keys outside the rename table do not affect the decoded record. */
  lemma DecodeIgnoresOtherKeys(obj: Object, other: Object)
    requires forall i :: 0 <= i < |CodingKeys| ==>
      (CodingKeys[i] in obj <==> CodingKeys[i] in other) &&
      (CodingKeys[i] in obj ==> obj[CodingKeys[i]] == other[CodingKeys[i]])
    ensures Decode(obj) == Decode(other)
  {
    DecodeEachIgnoresOtherKeys(obj, other, CodingKeys);
  }
}
