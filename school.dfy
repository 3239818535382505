/** School.swift: the school record and its JSON coding keys. */
module SchoolModel {
  import opened Wrappers
  import opened Json
  import FavoriteCache

  /** Every property is an optional string; `isFavorite` is computed, not stored. */
  datatype School = School(
    id: Option<string>,
    name: Option<string>,
    description: Option<string>,
    email: Option<string>,
    website: Option<string>,
    nta: Option<string>,
    borough: Option<string>,
    phoneNumber: Option<string>)

  /**
   * The CodingKeys rename table, in the order its cases are declared, which
   * is the order the synthesized `init(from:)` decodes them: id = "dbn",
   * name = "school_name", description = "overview_paragraph",
   * phoneNumber = "phone_number", email = "school_email"; website, nta and
   * borough keep their names. Phone number comes before email here, unlike
   * the property declarations.
   */
  const CodingKeys: seq<string> :=
    ["dbn", "school_name", "overview_paragraph", "phone_number", "school_email", "website", "nta", "borough"]

  /** No two properties share a key. */
  lemma CodingKeysAreDistinct()
    ensures Distinct(CodingKeys)
  {
  }

  /** The properties, in the order of CodingKeys. */
  function Fields(school: School): (r: seq<Option<string>>)
    ensures |r| == |CodingKeys|
  {
    [school.id, school.name, school.description, school.phoneNumber,
     school.email, school.website, school.nta, school.borough]
  }

  function FromFields(values: seq<Option<string>>): (r: School)
    requires |values| == |CodingKeys|
    ensures Fields(r) == values
  {
    School(id := values[0], name := values[1], description := values[2], phoneNumber := values[3],
      email := values[4], website := values[5], nta := values[6], borough := values[7])
  }

  /** The synthesized `init(from:)`. */
  function Decode(obj: Object): (r: Result<School>)
    // decoding fails only on a value of the wrong type, and names the first such key
    ensures r.Ok? <==> FirstMismatch(obj, CodingKeys).None?
    ensures r.Err? ==> r.error == TypeMismatch(FirstMismatch(obj, CodingKeys).value)
    // each property comes from its renamed key; a missing key gives nil
    ensures r.Ok? ==> r.value == School(
      StringAt(obj, "dbn"), StringAt(obj, "school_name"), StringAt(obj, "overview_paragraph"),
      StringAt(obj, "school_email"), StringAt(obj, "website"), StringAt(obj, "nta"),
      StringAt(obj, "borough"), StringAt(obj, "phone_number"))
  {
    var values :- DecodeEach(obj, CodingKeys);
    Ok(FromFields(values))
  }

  /** The synthesized `encode(to:)`: only present properties are written, each under its renamed key. */
  function Encode(school: School): (r: Object)
    ensures r.Keys <= set k | k in CodingKeys
    ensures forall k :: k in r ==> r[k].Str?
    ensures StringAt(r, "dbn") == school.id
    ensures StringAt(r, "school_name") == school.name
    ensures StringAt(r, "overview_paragraph") == school.description
    ensures StringAt(r, "school_email") == school.email
    ensures StringAt(r, "website") == school.website
    ensures StringAt(r, "nta") == school.nta
    ensures StringAt(r, "borough") == school.borough
    ensures StringAt(r, "phone_number") == school.phoneNumber
  {
    CodingKeysAreDistinct();
    var r := EncodeEach(map[], CodingKeys, Fields(school));
    assert StringAt(r, CodingKeys[1]) == school.name;
    assert StringAt(r, CodingKeys[2]) == school.description;
    assert StringAt(r, CodingKeys[3]) == school.phoneNumber;
    assert StringAt(r, CodingKeys[4]) == school.email;
    r
  }

  /** Encoding and then decoding a school gives it back. */
  lemma DecodeEncode(school: School)
    ensures Decode(Encode(school)) == Ok(school)
  {
  }

  /** Decoding and re-encoding keeps exactly the string values under the coding keys. */
  lemma EncodeDecode(obj: Object, school: School)
    requires Decode(obj) == Ok(school)
    ensures Encode(school) == Strings(obj, set k | k in CodingKeys)
  {
    SameStrings(Encode(school), Strings(obj, set k | k in CodingKeys), set k | k in CodingKeys);
  }

  /**
   * With two mistyped values, the error names the one whose coding key is
   * declared first: "phone_number", although `email` is declared before
   * `phoneNumber` among the properties.
   */
  lemma PhoneNumberIsDecodedBeforeEmail()
    ensures Decode(map["school_email" := NonString, "phone_number" := NonString]) ==
      Err(TypeMismatch("phone_number"))
  {
    var obj := map["school_email" := NonString, "phone_number" := NonString];
    assert !Mismatched(obj, CodingKeys[0]) && !Mismatched(obj, CodingKeys[1]) && !Mismatched(obj, CodingKeys[2]);
    assert Mismatched(obj, CodingKeys[3]);
  }

  /** Keys outside the rename table do not affect the decoded record. */
  lemma DecodeIgnoresOtherKeys(obj: Object, other: Object)
    requires forall i :: 0 <= i < |CodingKeys| ==>
      (CodingKeys[i] in obj <==> CodingKeys[i] in other) &&
      (CodingKeys[i] in obj ==> obj[CodingKeys[i]] == other[CodingKeys[i]])
    ensures Decode(obj) == Decode(other)
  {
    DecodeEachIgnoresOtherKeys(obj, other, CodingKeys);
  }

  /** `isFavorite`: looked up in the favorites slot by id; a school without an id is never a favorite. */
  predicate IsFavorite(school: School, slot: FavoriteCache.Slot)
    ensures IsFavorite(school, slot) <==>
      school.id.Some? && slot.Ids? && school.id.value in slot.ids
  {
    FavoriteCache.IsFavorited(slot, school.id)
  }
}
