/**
 * What the synthesized Codable conformance does with an optional String
 * property: `decodeIfPresent` on decoding, `encodeIfPresent` on encoding.
 */
module Json {
  import opened Wrappers

  /** A JSON value as an optional String property sees it. */
  datatype Value = Str(s: string) | Null | NonString

  /** One JSON object: its keys and their values. */
  type Object = map<string, Value>

  /** `DecodingError.typeMismatch` on the named key. */
  datatype DecodeError = TypeMismatch(key: string)

  datatype Result<+T> = Ok(value: T) | Err(error: DecodeError) {
    predicate IsFailure() { Err? }

    function PropagateFailure<U>(): Result<U>
      requires Err?
    {
      Err(error)
    }

    function Extract(): T
      requires Ok?
    {
      value
    }
  }

  /** The string under `key`, when there is one. */
  function StringAt(obj: Object, key: string): Option<string>
  {
    if key in obj && obj[key].Str? then Some(obj[key].s) else None
  }

  /** True when `key` holds something that is neither a string nor null. */
  predicate Mismatched(obj: Object, key: string)
  {
    key in obj && obj[key].NonString?
  }

  /** `decodeIfPresent(String.self, forKey: key)` */
  function DecodeIfPresent(obj: Object, key: string): (r: Result<Option<string>>)
    ensures r.Err? <==> Mismatched(obj, key)
    ensures r.Err? ==> r.error == TypeMismatch(key)
    ensures r.Ok? ==> r.value == StringAt(obj, key)
    // a missing key and an explicit null both decode to nil, never to a failure
    ensures key !in obj || obj[key].Null? ==> r == Ok(None)
  {
    if key !in obj then Ok(None)
    else match obj[key]
      case Str(s) => Ok(Some(s))
      case Null => Ok(None)
      case NonString => Err(TypeMismatch(key))
  }

  /** `encodeIfPresent(value, forKey: key)`: a nil property writes no key at all. */
  function EncodeIfPresent(obj: Object, key: string, value: Option<string>): (r: Object)
    ensures value.Some? ==> StringAt(r, key) == value && r[key] == Str(value.value)
    ensures value.None? ==> r == obj
    ensures r.Keys <= obj.Keys + {key}
    ensures forall k :: k in obj && k != key ==> k in r && r[k] == obj[k]
  {
    match value
    case None => obj
    case Some(s) => obj[key := Str(s)]
  }

  /** No key among the first `n` of `keys` holds a value of the wrong type. */
  predicate NoneMismatchedBefore(obj: Object, keys: seq<string>, n: nat)
    requires n <= |keys|
  {
    forall j :: 0 <= j < n ==> !Mismatched(obj, keys[j])
  }

  /** The first key of `keys`, in order, that holds a value of the wrong type. */
  function FirstMismatch(obj: Object, keys: seq<string>): (r: Option<string>)
    ensures r.None? <==> forall i :: 0 <= i < |keys| ==> !Mismatched(obj, keys[i])
    ensures r.Some? ==> r.value in keys && Mismatched(obj, r.value)
    // no key before the one returned is mismatched
    ensures r.Some? ==> exists i :: 0 <= i < |keys| && keys[i] == r.value && NoneMismatchedBefore(obj, keys, i)
  {
    if keys == [] then None
    else if Mismatched(obj, keys[0]) then Some(keys[0])
    else
      assert forall i :: 0 < i < |keys| ==> keys[i] == keys[1..][i - 1];
      var r := FirstMismatch(obj, keys[1..]);
      assert r.Some? ==> exists i :: 0 <= i < |keys| && keys[i] == r.value && NoneMismatchedBefore(obj, keys, i) by {
        if r.Some? {
          var i :| 0 <= i < |keys[1..]| && keys[1..][i] == r.value && NoneMismatchedBefore(obj, keys[1..], i);
          assert keys[i + 1] == r.value;
          assert NoneMismatchedBefore(obj, keys, i + 1);
        }
      }
      r
  }

  predicate Distinct(keys: seq<string>)
  {
    forall i, j :: 0 <= i < j < |keys| ==> keys[i] != keys[j]
  }

  /**
   * `decodeIfPresent` for each key in turn, as the synthesized `init(from:)`
   * does for the CodingKeys cases in declaration order: the first failure ends it.
   */
  function DecodeEach(obj: Object, keys: seq<string>): (r: Result<seq<Option<string>>>)
    ensures r.Ok? <==> FirstMismatch(obj, keys).None?
    ensures r.Err? ==> r.error == TypeMismatch(FirstMismatch(obj, keys).value)
    ensures r.Ok? ==> |r.value| == |keys|
    ensures r.Ok? ==> forall i :: 0 <= i < |keys| ==> r.value[i] == StringAt(obj, keys[i])
  {
    if keys == [] then Ok([])
    else
      var first :- DecodeIfPresent(obj, keys[0]);
      var rest :- DecodeEach(obj, keys[1..]);
      assert forall i :: 0 < i < |keys| ==> keys[i] == keys[1..][i - 1];
      Ok([first] + rest)
  }

  /** Decoding looks at the listed keys only. */
  lemma {:induction false} DecodeEachIgnoresOtherKeys(obj: Object, other: Object, keys: seq<string>)
    requires forall i :: 0 <= i < |keys| ==>
      (keys[i] in obj <==> keys[i] in other) &&
      (keys[i] in obj ==> obj[keys[i]] == other[keys[i]])
    ensures DecodeEach(obj, keys) == DecodeEach(other, keys)
  {
    if keys != [] {
      assert forall i :: 0 <= i < |keys[1..]| ==> keys[1..][i] == keys[i + 1];
      DecodeEachIgnoresOtherKeys(obj, other, keys[1..]);
    }
  }

  /**
   * `encodeIfPresent` for each key in turn, into a container that holds none
   * of these keys yet.
   */
  function EncodeEach(obj: Object, keys: seq<string>, values: seq<Option<string>>): (r: Object)
    requires |keys| == |values| && Distinct(keys)
    requires forall i :: 0 <= i < |keys| ==> keys[i] !in obj
    ensures forall i :: 0 <= i < |keys| ==> StringAt(r, keys[i]) == values[i]
    ensures forall i :: 0 <= i < |keys| ==> (keys[i] in r <==> values[i].Some?)
    ensures forall k :: k in r && k !in keys ==> k in obj && r[k] == obj[k]
    ensures forall k :: k in obj ==> k in r
    ensures (forall k :: k in obj ==> obj[k].Str?) ==> forall k :: k in r ==> r[k].Str?
    decreases |keys|
  {
    if keys == [] then obj
    else
      assert forall i :: 0 < i < |keys| ==> keys[i] == keys[1..][i - 1];
      EncodeEach(EncodeIfPresent(obj, keys[0], values[0]), keys[1..], values[1..])
  }

  /** Two objects holding only strings, under the same keys, with the same strings, are equal. */
  lemma SameStrings(a: Object, b: Object, keys: set<string>)
    requires a.Keys <= keys && b.Keys <= keys
    requires forall k :: k in a ==> a[k].Str?
    requires forall k :: k in b ==> b[k].Str?
    requires forall k :: k in keys ==> StringAt(a, k) == StringAt(b, k)
    ensures a == b
  {
    forall k | k in a
      ensures k in b && a[k] == b[k]
    {
      assert StringAt(a, k) == StringAt(b, k);
    }
    assert a.Keys == b.Keys;
  }

  /** The object restricted to the given keys, with nulls and mismatches dropped: what re-encoding keeps. */
  function Strings(obj: Object, keys: set<string>): (r: Object)
    ensures r.Keys <= keys
    ensures forall k :: k in keys ==> StringAt(r, k) == StringAt(obj, k)
    ensures forall k :: k in r ==> r[k].Str?
  {
    map k | k in keys && k in obj && obj[k].Str? :: obj[k]
  }
}
