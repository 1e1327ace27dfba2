/**
 * The non-date helpers of Helper.ts: `capitalize` and `isPrimitiveDataType`.
 */
module Helper {
  import opened Outcomes
  import opened Text
  import opened Primitives

  // ------------------------------------------------------------ capitalize

  /** The same character up to ASCII case. */
  predicate SameLetter(c: char, d: char) { LowerChar(c) == LowerChar(d) }

  /**
   * `capitalize(s)`: the first character upper-cased, the rest lower-cased.
   * On the empty string `s[0]` is `undefined` and the call throws.
   */
  function Capitalize(s: string): (r: Result<string>)
    ensures r.Err? <==> s == ""
    ensures r.Err? ==> r.error == NoFirstCharacter
    ensures r.Ok? ==> |r.value| == |s|
    ensures r.Ok? ==> forall i :: 0 <= i < |s| ==> SameLetter(r.value[i], s[i])
    ensures r.Ok? ==> !IsLowerAscii(r.value[0])
    ensures r.Ok? ==> forall i :: 1 <= i < |s| ==> !IsUpperAscii(r.value[i])
  {
    if s == [] then Err(NoFirstCharacter)
    else Ok([UpperChar(s[0])] + ToLower(s[1..]))
  }

  /** A capitalized text is its own capitalization. */
  lemma CapitalizeIdempotent(s: string)
    requires s != ""
    ensures Capitalize(Capitalize(s).value) == Capitalize(s)
  {
    var t := Capitalize(s).value;
    assert t[1..] == ToLower(s[1..]);
    assert ToLower(t[1..]) == t[1..];
  }

  lemma CapitalizeExamples()
    ensures Capitalize("true") == Ok("True")
    ensures Capitalize("fALSE") == Ok("False")
    ensures Capitalize("") == Err(NoFirstCharacter)
  {
    assert UpperChar('t') == 'T' && ToLower("rue") == "rue";
    assert [UpperChar('t')] + ToLower("rue") == "True";
    assert UpperChar('f') == 'F' && ToLower("ALSE") == "alse";
    assert [UpperChar('f')] + ToLower("ALSE") == "False";
  }

  // --------------------------------------------------- isPrimitiveDataType

  /**
   * What the document tree holds: a record of named entries, an array of
   * entries, or an instance of one of the primitive classes.
   */
  datatype Entry =
    | Record(fields: map<string, Entry>)
    | List(items: seq<Entry>)
    | Leaf(value: Primitive)

  /**
   * `isPrimitiveDataType(data)`: arrays are refused at once; otherwise
   * `data` is tested against each primitive class in turn.
   */
  method IsPrimitiveDataType(data: Entry) returns (r: bool)
    ensures r <==> data.Leaf?
  {
    if data.List? {
      return false;
    }
    var i := 0;
    while i < |AllKinds|
      invariant 0 <= i <= |AllKinds|
      invariant data.Leaf? ==> KindOf(data.value) !in AllKinds[..i]
    {
      if data.Leaf? && KindOf(data.value) == AllKinds[i] {
        return true;
      }
      i := i + 1;
    }
    assert AllKinds[..i] == AllKinds;
    return false;
  }
}
