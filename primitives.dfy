/**
 * The twelve primitive-value classes as values: what each instance holds,
 * the checks its constructor makes, `parseFromString`, `toString` and
 * `getName`. JavaScript numbers are integers here, except the arguments of
 * the truncating integer constructors, which are reals.
 */
module Primitives {
  import opened Outcomes
  import opened Text
  import Base64
  import opened DateTimeHelper

  /** The twelve classes; `getPrimitiveDataClasses()` maps their names to them. */
  datatype Kind =
    | StringKind | CodeKind | UriKind | UuidKind | BinaryKind | DateTimeKind
    | DateKind | BooleanKind | IntegerKind | DecimalKind | UnsignedIntegerKind | MarkdownKind

  /** An instance of one of the classes, reduced to its `_value`. */
  datatype Primitive =
    | StringPio(text: string)
    | CodePio(text: string)
    | UriPio(text: string)
    | UuidPio(text: string)
    | BinaryPio(text: string)
    | DateTimePio(dateTime: DateTimeFields)
    | DatePio(date: DateFields)
    | BooleanPio(flag: bool)
    | IntegerPio(number: int)
    | DecimalPio(literal: string)         // the decimal's text, kept as written
    | UnsignedIntegerPio(number: int)
    | MarkdownPio(text: string)

  const AllKinds: seq<Kind> := [StringKind, CodeKind, UriKind, UuidKind, BinaryKind, DateTimeKind,
                                DateKind, BooleanKind, IntegerKind, DecimalKind, UnsignedIntegerKind, MarkdownKind]

  /** The class an instance belongs to. */
  function KindOf(p: Primitive): Kind
  {
    match p
    case StringPio(_) => StringKind
    case CodePio(_) => CodeKind
    case UriPio(_) => UriKind
    case UuidPio(_) => UuidKind
    case BinaryPio(_) => BinaryKind
    case DateTimePio(_) => DateTimeKind
    case DatePio(_) => DateKind
    case BooleanPio(_) => BooleanKind
    case IntegerPio(_) => IntegerKind
    case DecimalPio(_) => DecimalKind
    case UnsignedIntegerPio(_) => UnsignedIntegerKind
    case MarkdownPio(_) => MarkdownKind
  }

  /** The class name, which `getName` returns and which tags encoded data. */
  function Name(k: Kind): string
  {
    match k
    case StringKind => "StringPIO"
    case CodeKind => "CodePIO"
    case UriKind => "UriPIO"
    case UuidKind => "UuidPIO"
    case BinaryKind => "BinaryPIO"
    case DateTimeKind => "DateTimePIO"
    case DateKind => "DatePIO"
    case BooleanKind => "BooleanPIO"
    case IntegerKind => "IntegerPIO"
    case DecimalKind => "DecimalPIO"
    case UnsignedIntegerKind => "UnsignedIntegerPIO"
    case MarkdownKind => "MarkdownPIO"
  }

  /** `getPrimitiveDataClasses()[tag]`: the class of that name, if any. */
  function ClassByName(tag: string): (r: Option<Kind>)
    ensures r.Some? ==> Name(r.value) == tag
    ensures r.None? ==> forall k :: Name(k) != tag
  {
    if tag == "StringPIO" then Some(StringKind)
    else if tag == "CodePIO" then Some(CodeKind)
    else if tag == "UriPIO" then Some(UriKind)
    else if tag == "UuidPIO" then Some(UuidKind)
    else if tag == "BinaryPIO" then Some(BinaryKind)
    else if tag == "DateTimePIO" then Some(DateTimeKind)
    else if tag == "DatePIO" then Some(DateKind)
    else if tag == "BooleanPIO" then Some(BooleanKind)
    else if tag == "IntegerPIO" then Some(IntegerKind)
    else if tag == "DecimalPIO" then Some(DecimalKind)
    else if tag == "UnsignedIntegerPIO" then Some(UnsignedIntegerKind)
    else if tag == "MarkdownPIO" then Some(MarkdownKind)
    else None
  }

  /** `getName()`: the name under which the class list holds the instance's class. */
  function GetName(p: Primitive): (r: string)
    ensures ClassByName(r) == Some(KindOf(p))
  {
    Name(KindOf(p))
  }

  /** Every class is found under its own name, and no two classes share one. */
  lemma ClassByNameOfName(k: Kind)
    ensures ClassByName(Name(k)) == Some(k)
  {
  }

  // ------------------------------------------------------------ the checks

  predicate IsHexDigit(c: char)
  {
    ('0' <= c <= '9') || ('a' <= c <= 'f') || ('A' <= c <= 'F')
  }

  /** The UUID text shape: hex digit groups of 8, 4, 4, 4 and 12 joined by `-`. */
  predicate IsUuid(s: string)
  {
    |s| == 36
    && (forall i :: 0 <= i < 36 && i != 8 && i != 13 && i != 18 && i != 23 ==> IsHexDigit(s[i]))
    && s[8] == '-' && s[13] == '-' && s[18] == '-' && s[23] == '-'
  }

  /** `UuidPIO.checkValue` applied to `value.split(":").pop()`. */
  function CheckUuid(value: string): (r: Result<string>)
    ensures r.Ok? ==> IsUuid(r.value) && ':' !in r.value
    ensures r.Ok? <==> IsUuid(LastSegment(value, ':'))
    ensures r.Err? ==> r.error == InvalidUuid
  {
    var tail := LastSegment(value, ':');
    SplitPiecesAvoidSeparator(value, ':');
    if IsUuid(tail) then Ok(tail) else Err(InvalidUuid)
  }

  /** `BinaryPIO.checkValue`: `btoa(atob(value)) === value`, a throwing `atob` counting as false. */
  function CheckBinary(value: string): (r: Result<string>)
    ensures r.Ok? ==> r.value == value
    ensures r.Ok? <==> exists b :: Base64.Btoa(b) == value
    ensures r.Err? ==> r.error == InvalidBase64
  {
    Base64.RoundTripsIffEncoding(value);
    if Base64.RoundTrips(value) then Ok(value) else Err(InvalidBase64)
  }

  /** `Math.trunc`: the integer part, rounding toward zero. */
  function Trunc(x: real): (r: int)
    ensures x >= 0.0 ==> r as real <= x < r as real + 1.0
    ensures x < 0.0 ==> r as real - 1.0 < x <= r as real
  {
    if x >= 0.0 then x.Floor else -((-x).Floor)
  }

  lemma TruncExamples()
    ensures Trunc(7.3) == 7 && Trunc(6.5) == 6 && Trunc(7.0) == 7
    ensures Trunc(-1.7) == -1 && Trunc(-2.3) == -2 && Trunc(-0.5) == 0
  {
  }

  /** `UnsignedIntegerPIO.checkValue`. */
  function CheckUnsigned(n: int): (r: Result<int>)
    ensures r.Ok? <==> n >= 0
    ensures r.Ok? ==> r.value == n
    ensures r.Err? ==> r.error == NegativeUnsigned
  {
    if n < 0 then Err(NegativeUnsigned) else Ok(n)
  }

  // ------------------------------------------------------ the constructors

  function NewCode(value: string): (r: Primitive)
    ensures r.CodePio? && r.text == Trim(value)
  {
    CodePio(Trim(value))
  }

  /** `new UuidPIO(value)`: holds the text after the last `:` when that text is a UUID. */
  function NewUuid(value: string): (r: Result<Primitive>)
    ensures r.Ok? <==> IsUuid(LastSegment(value, ':'))
    ensures r.Ok? ==> r.value == UuidPio(LastSegment(value, ':')) && Valid(r.value)
    ensures r.Err? ==> r.error == InvalidUuid
  {
    match CheckUuid(value)
    case Ok(u) => Ok(UuidPio(u))
    case Err(e) => Err(e)
  }

  /** `new BinaryPIO(value)`: holds `value` exactly when `value` is what `btoa` gives for some bytes. */
  function NewBinary(value: string): (r: Result<Primitive>)
    ensures r.Ok? <==> exists b :: Base64.Btoa(b) == value
    ensures r.Ok? ==> r.value == BinaryPio(value) && Valid(r.value)
    ensures r.Err? ==> r.error == InvalidBase64
  {
    match CheckBinary(value)
    case Ok(v) => Ok(BinaryPio(v))
    case Err(e) => Err(e)
  }

  /** The fields are kept only when `validateDateTime` accepts them. */
  function NewDateTime(y: int, m: int, d: int, h: int, mi: int, s: int := 0): (r: Result<Primitive>)
    ensures r.Ok? <==> ValidDate(y, m, d) && ValidTime(h, mi, s)
    ensures r.Ok? ==> r.value == DateTimePio(DateTimeFields(y, m, d, h, mi, s))
    ensures r.Err? ==> r == Err(ValidateDateTime(y, m, d, h, mi, s).error)
  {
    match ValidateDateTime(y, m, d, h, mi, s)
    case Pass => Ok(DateTimePio(DateTimeFields(y, m, d, h, mi, s)))
    case Fail(e) => Err(e)
  }

  function NewDate(y: int, m: int, d: int): (r: Result<Primitive>)
    ensures r.Ok? <==> ValidDate(y, m, d)
    ensures r.Ok? ==> r.value == DatePio(DateFields(y, m, d))
    ensures r.Err? ==> r.error == DateValidationFailed
  {
    match ValidateDateTime(y, m, d)
    case Pass => Ok(DatePio(DateFields(y, m, d)))
    case Fail(e) => Err(e)
  }

  /** `new IntegerPIO(x)`: the integer part of `x`, rounding toward zero. */
  function NewInteger(x: real): (r: Primitive)
    ensures r.IntegerPio?
    ensures x >= 0.0 ==> 0 <= r.number && r.number as real <= x < r.number as real + 1.0
    ensures x < 0.0 ==> r.number <= 0 && r.number as real - 1.0 < x <= r.number as real
  {
    IntegerPio(Trunc(x))
  }

  function NewUnsignedInteger(x: real): (r: Result<Primitive>)
    ensures r.Ok? <==> x > -1.0
    ensures r.Ok? ==> r.value == UnsignedIntegerPio(Trunc(x))
    ensures r.Err? ==> r.error == NegativeUnsigned
  {
    match CheckUnsigned(Trunc(x))
    case Ok(n) => Ok(UnsignedIntegerPio(n))
    case Err(e) => Err(e)
  }

  /** What a successfully constructed instance holds. */
  predicate Valid(p: Primitive)
  {
    match p
    case CodePio(t) => Trim(t) == t
    case UuidPio(t) => IsUuid(t)
    case BinaryPio(t) => Base64.RoundTrips(t)
    case DateTimePio(f) => ValidDate(f.year, f.month, f.day) && ValidTime(f.hour, f.minute, f.second)
    case DatePio(f) => ValidDate(f.year, f.month, f.day)
    case UnsignedIntegerPio(n) => n >= 0
    case _ => true
  }

  // -------------------------------------------------------------- toString

  function DateTimeText(f: DateTimeFields): string
  {
    DateString(f.year, f.month, f.day) + "T" + TimeString(f.hour, f.minute, f.second) + "Z"
  }

  /**
   * `toString()`. An integer prints without `.` or `,`, so the integer
   * decoder never mistakes it for a decimal; `DecodeOfEncode` shows every
   * class reads its own text back.
   */
  function ToString(p: Primitive): (r: string)
    ensures p.IntegerPio? || p.UnsignedIntegerPio? ==> '.' !in r && ',' !in r
  {
    match p
    case StringPio(t) => t
    case CodePio(t) => t
    case UriPio(t) => t
    case UuidPio(t) => "urn:uuid:" + t
    case BinaryPio(t) => t
    case DateTimePio(f) => DateTimeText(f)
    case DatePio(f) => BuildDateTimeString("date", f.year, f.month, f.day).value
    case BooleanPio(b) => if b then "true" else "false"
    case IntegerPio(n) => IntToString(n)
    case DecimalPio(l) => l
    case UnsignedIntegerPio(n) => IntToString(n)
    case MarkdownPio(t) => t
  }

  // ------------------------------------------------------- parseFromString

  /** JavaScript truthiness of a `string | undefined`. */
  predicate Truthy(value: Option<string>)
  {
    value.Some? && value.value != ""
  }

  function ParseBoolean(v: string): (r: Result<bool>)
    ensures r.Ok? <==> ToLower(v) == "true" || ToLower(v) == "false"
    ensures r.Ok? ==> r.value == (ToLower(v) == "true")
    ensures r.Err? ==> r.error == NotABoolean
  {
    var lowered := ToLower(v);
    if lowered == "true" || lowered == "false" then Ok(lowered == "true")
    else Err(NotABoolean)
  }

  /** `parseInt` on the text of an integer, after the check for `.` and `,`. */
  function ParseInteger(v: string): (r: Result<int>)
    ensures ('.' in v || ',' in v) ==> r == Err(DecimalForInteger)
    ensures r.Ok? ==> ParseInt(v) == Some(r.value)
  {
    if '.' in v || ',' in v then Err(DecimalForInteger)
    else match ParseInt(v)
      case None => Err(NotANumber)
      case Some(n) => Ok(n)
  }

  /**
   * A date-time, with midnight when the text has no time part. The fields
   * the parser read are kept as they are: it has validated them already, so
   * the constructor never refuses them a second time.
   */
  function ParseDateTime(v: string): (r: Result<Primitive>)
    ensures var o := ParseStringToDateObject(v);
      && (o.Err? ==> r == Err(o.error))
      && (o.Ok? && o.value.DateAndTime? ==> r == Ok(DateTimePio(o.value.dateTime)))
      && (o.Ok? && o.value.DateOnly? ==>
            r == Ok(DateTimePio(DateTimeFields(o.value.date.year, o.value.date.month, o.value.date.day, 0, 0, 0))))
  {
    match ParseStringToDateObject(v)
    case Err(e) => Err(e)
    case Ok(DateOnly(f)) => NewDateTime(f.year, f.month, f.day, 0, 0, 0)
    case Ok(DateAndTime(f)) => NewDateTime(f.year, f.month, f.day, f.hour, f.minute, f.second)
  }

  /** A date; text with a time part is refused once it has been read and validated. */
  function ParseDate(v: string): (r: Result<Primitive>)
    ensures var o := ParseStringToDateObject(v);
      && (o.Err? ==> r == Err(o.error))
      && (o.Ok? && o.value.DateOnly? ==> r == Ok(DatePio(o.value.date)))
      && (o.Ok? && o.value.DateAndTime? ==> r == Err(TimeInDate))
  {
    match ParseStringToDateObject(v)
    case Err(e) => Err(e)
    case Ok(DateOnly(f)) => NewDate(f.year, f.month, f.day)
    case Ok(DateAndTime(_)) => Err(TimeInDate)
  }

  /**
   * The `parseFromString` of a non-empty text. The text classes take any
   * text; the others refuse exactly what their checks refuse.
   */
  function ParsePresent(k: Kind, v: string): (r: Result<Primitive>)
    ensures r.Ok? ==> KindOf(r.value) == k
    ensures k in {StringKind, CodeKind, UriKind, DecimalKind, MarkdownKind} ==> r.Ok?
    ensures k == UuidKind ==> (r.Ok? <==> IsUuid(LastSegment(v, ':')))
    ensures k == BinaryKind ==> (r.Ok? <==> exists b :: Base64.Btoa(b) == v)
    ensures k == BooleanKind ==> (r.Ok? <==> ToLower(v) == "true" || ToLower(v) == "false")
    ensures (k == IntegerKind || k == UnsignedIntegerKind) && ('.' in v || ',' in v) ==> r == Err(DecimalForInteger)
    ensures k == UnsignedIntegerKind && r.Ok? ==> r.value.number >= 0
  {
    match k
    case StringKind => Ok(StringPio(v))
    case CodeKind => Ok(NewCode(v))
    case UriKind => Ok(UriPio(v))
    case UuidKind => NewUuid(v)
    case BinaryKind => NewBinary(v)
    case DateTimeKind => ParseDateTime(v)
    case DateKind => ParseDate(v)
    case BooleanKind =>
      (match ParseBoolean(v) case Ok(b) => Ok(BooleanPio(b)) case Err(e) => Err(e))
    case IntegerKind =>
      (match ParseInteger(v) case Ok(n) => Ok(IntegerPio(n)) case Err(e) => Err(e))
    case DecimalKind => Ok(DecimalPio(v))
    case UnsignedIntegerKind =>
      (match ParseInteger(v)
       case Ok(n) => (match CheckUnsigned(n) case Ok(u) => Ok(UnsignedIntegerPio(u)) case Err(e) => Err(e))
       case Err(e) => Err(e))
    case MarkdownKind => Ok(MarkdownPio(v))
  }

  /** `parseFromString` of class `k`: `undefined` for `undefined` or the empty string. */
  function ParseFromString(k: Kind, value: Option<string>): (r: Result<Option<Primitive>>)
    ensures !Truthy(value) ==> r == Ok(None)
    ensures r.Ok? && r.value.Some? ==> KindOf(r.value.value) == k && Valid(r.value.value)
  {
    if !Truthy(value) then Ok(None)
    else
      ParsePresentValid(k, value.value);
      match ParsePresent(k, value.value)
      case Ok(p) => Ok(Some(p))
      case Err(e) => Err(e)
  }

  /** Whatever a decoder accepts is a valid instance of its class. */
  lemma ParsePresentValid(k: Kind, v: string)
    ensures ParsePresent(k, v).Ok? ==> KindOf(ParsePresent(k, v).value) == k && Valid(ParsePresent(k, v).value)
  {
    match k
    case CodeKind => TrimIdempotent(v);
    case _ =>
  }

  // ------------------------------------------------------------ properties

  lemma UuidAvoidsColon(t: string)
    requires IsUuid(t)
    ensures ':' !in t
  {
  }

  /** A `urn:uuid:` prefix is dropped: the stored text is the same with or without it. */
  lemma UuidPrefixDropped(u: string)
    requires ':' !in u
    ensures CheckUuid("urn:uuid:" + u) == CheckUuid(u)
    ensures LastSegment(u, ':') == u
    ensures CheckUuid(u).Ok? ==> CheckUuid(u).value == u
  {
    LastSegmentOfAppend("urn:uuid", u, ':');
    assert "urn:uuid:" + u == "urn:uuid" + [':'] + u;
    SplitWithoutSeparator(u, ':');
  }

  /** A stored UUID never carries the prefix, and `toString` puts it back. */
  lemma UuidStoredWithoutPrefix(value: string)
    requires CheckUuid(value).Ok?
    ensures var u := CheckUuid(value).value;
            ':' !in u && ToString(UuidPio(u)) == "urn:uuid:" + u && CheckUuid(ToString(UuidPio(u))) == Ok(u)
  {
    UuidPrefixDropped(CheckUuid(value).value);
  }

  /** The number text `toString` gives holds neither `.` nor `,`. */
  lemma IntegerTextHasNoSeparator(n: int)
    ensures '.' !in IntToString(n) && ',' !in IntToString(n)
  {
  }

  lemma DecodeCodeText(t: string)
    requires Valid(CodePio(t))
    ensures ParsePresent(CodeKind, ToString(CodePio(t))) == Ok(CodePio(t))
  {
  }

  lemma DecodeUuidText(t: string)
    requires Valid(UuidPio(t))
    ensures ParsePresent(UuidKind, ToString(UuidPio(t))) == Ok(UuidPio(t))
  {
    UuidAvoidsColon(t);
    UuidPrefixDropped(t);
  }

  /** A text read as a date and a time becomes that date-time instance. */
  lemma DateTimeOfObject(v: string, f: DateTimeFields)
    requires ParseStringToDateObject(v) == Ok(DateAndTime(f))
    ensures ParsePresent(DateTimeKind, v) == Ok(DateTimePio(f))
  {
    assert ParseDateTime(v) == Ok(DateTimePio(f));
  }

  /** A non-empty text read as a date and a time is refused as a date. */
  lemma DateOfTimeObject(v: string, f: DateTimeFields)
    requires v != ""
    requires ParseStringToDateObject(v) == Ok(DateAndTime(f))
    ensures ParseFromString(DateKind, Some(v)) == Err(TimeInDate)
  {
    assert ParsePresent(DateKind, v) == Err(TimeInDate);
  }

  /** The text of a valid date-time is read back as that date and time. */
  lemma DateTimeTextReadsBack(f: DateTimeFields)
    requires Valid(DateTimePio(f))
    ensures ParseStringToDateObject(DateTimeText(f)) == Ok(DateAndTime(f))
  {
    assert ValidateDateTime(f.year, f.month, f.day, f.hour, f.minute, f.second) == Pass;
    ParseDateTimeString(f.year, f.month, f.day, f.hour, f.minute, f.second, "Z");
  }

  lemma DecodeDateTimeText(f: DateTimeFields)
    requires Valid(DateTimePio(f))
    ensures ParsePresent(DateTimeKind, ToString(DateTimePio(f))) == Ok(DateTimePio(f))
  {
    DateTimeTextReadsBack(f);
    DateTimeOfObject(DateTimeText(f), f);
  }

  lemma DecodeDateText(f: DateFields)
    requires Valid(DatePio(f))
    ensures ParsePresent(DateKind, ToString(DatePio(f))) == Ok(DatePio(f))
  {
    ParseDateString(f.year, f.month, f.day);
  }

  lemma DecodeBooleanText(b: bool)
    ensures ParsePresent(BooleanKind, ToString(BooleanPio(b))) == Ok(BooleanPio(b))
  {
    assert ToLower("true") == "true" && ToLower("false") == "false";
  }

  lemma DecodeIntegerText(n: int)
    requires PrintsPlain(n)
    ensures ParseInteger(IntToString(n)) == Ok(n)
  {
    IntegerTextHasNoSeparator(n);
    ParseIntOfIntToString(n);
  }

  /** `toString` writes an integer value in the plain digits `parseInt` reads: below 10^21 in magnitude. */
  predicate PrintsPlainly(p: Primitive)
  {
    p.IntegerPio? || p.UnsignedIntegerPio? ==> PrintsPlain(p.number)
  }

  /** Decoding the text `toString` gives rebuilds the instance it came from. */
  lemma DecodeOfEncode(p: Primitive)
    requires Valid(p) && PrintsPlainly(p)
    ensures ParsePresent(KindOf(p), ToString(p)) == Ok(p)
  {
    match p
    case CodePio(t) => DecodeCodeText(t);
    case UuidPio(t) => DecodeUuidText(t);
    case DateTimePio(f) => DecodeDateTimeText(f);
    case DatePio(f) => DecodeDateText(f);
    case BooleanPio(b) => DecodeBooleanText(b);
    case IntegerPio(n) => DecodeIntegerText(n);
    case UnsignedIntegerPio(n) => DecodeIntegerText(n);
    case _ =>
  }

  /**
   * The codec round trip: the class found under the name `getName` gives,
   * decoding the text `toString` gives, rebuilds the instance — unless that
   * text is empty, which every decoder reads as `undefined`.
   */
  lemma ParseFromStringOfToString(p: Primitive)
    requires Valid(p) && PrintsPlainly(p) && ToString(p) != ""
    ensures ClassByName(GetName(p)) == Some(KindOf(p))
    ensures ParseFromString(KindOf(p), Some(ToString(p))) == Ok(Some(p))
  {
    ClassByNameOfName(KindOf(p));
    DecodeOfEncode(p);
  }

  /** `trim` on construction: no white space at either end, and constructing again changes nothing. */
  lemma CodeTrimmed(value: string)
    ensures NewCode(NewCode(value).text) == NewCode(value)
  {
    TrimIdempotent(value);
  }

  /** The boolean decoder ignores case: a text and its lower-cased form decode alike. */
  lemma BooleanIgnoresCase(v: string)
    ensures ParseBoolean(v) == ParseBoolean(ToLower(v))
  {
    ToLowerIdempotent(v);
  }

  /** Case does not matter to the boolean decoder; anything but "true" or "false" is refused. */
  lemma BooleanExamples()
    ensures ParseFromString(BooleanKind, Some("TRUE")) == Ok(Some(BooleanPio(true)))
    ensures ParseFromString(BooleanKind, Some("False")) == Ok(Some(BooleanPio(false)))
    ensures ParseFromString(BooleanKind, Some("yes")) == Err(NotABoolean)
  {
    assert ToLower("TRUE") == "true";
    assert ToLower("False") == "false";
    assert ToLower("yes") == "yes";
  }

  /** A valid date and time, written without a zone, is read back as that date and time. */
  lemma PlainDateTimeReadsBack(y: int, m: int, d: int, h: int, mi: int, s: int)
    requires ValidDate(y, m, d) && ValidTime(h, mi, s)
    ensures ParseStringToDateObject(DateString(y, m, d) + "T" + TimeString(h, mi, s))
         == Ok(DateAndTime(DateTimeFields(y, m, d, h, mi, s)))
  {
    assert ValidateDateTime(y, m, d, h, mi, s) == Pass;
    ParseDateTimeStringPlain(y, m, d, h, mi, s);
  }

  /** `parseFromString` of a date refuses a time part it has read. */
  lemma DateRefusesTime(y: int, m: int, d: int, h: int, mi: int, s: int)
    requires ValidDate(y, m, d) && ValidTime(h, mi, s)
    ensures ParseFromString(DateKind, Some(DateString(y, m, d) + "T" + TimeString(h, mi, s))) == Err(TimeInDate)
  {
    PlainDateTimeReadsBack(y, m, d, h, mi, s);
    DateOfTimeObject(DateString(y, m, d) + "T" + TimeString(h, mi, s), DateTimeFields(y, m, d, h, mi, s));
  }

  /** `parseFromString` of a date-time fills in midnight when the text has no time part. */
  lemma DateTimeDefaultsToMidnight(y: int, m: int, d: int)
    requires ValidDate(y, m, d)
    ensures ParseFromString(DateTimeKind, Some(DateString(y, m, d)))
         == Ok(Some(DateTimePio(DateTimeFields(y, m, d, 0, 0, 0))))
  {
    ParseDateString(y, m, d);
    assert ParseDateTime(DateString(y, m, d)) == Ok(DateTimePio(DateTimeFields(y, m, d, 0, 0, 0)));
  }

  lemma ExampleTimeText()
    ensures TimeString(12, 56, 1) == "12:56:01"
  {
    assert DateTimeIntegerToString(12) == "12";
    assert DateTimeIntegerToString(56) == "56" && DateTimeIntegerToString(1) == "01";
  }

  /** "2022-03-12" comes back unchanged from a date. */
  lemma DateRoundTripExample()
    ensures var v := DateString(2022, 3, 12);
            ParseFromString(DateKind, Some(v)) == Ok(Some(DatePio(DateFields(2022, 3, 12))))
            && ToString(DatePio(DateFields(2022, 3, 12))) == v
  {
    DecodeDateText(DateFields(2022, 3, 12));
  }
}
