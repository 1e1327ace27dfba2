/**
 * The twelve primitive-value classes as objects: each keeps its `_value` in
 * a mutable field that the constructor fills and `set` overwrites. A
 * constructor that can throw is a static `Create` returning a `Result`; a
 * `set` that can throw returns the `Outcome`. The pure parts (`toString`,
 * `getName`, the checks) are those of the `Primitives` module, applied to
 * `Snapshot()`, the value the object currently holds.
 */
module PioObjects {
  import opened Outcomes
  import opened Text
  import opened DateTimeHelper
  import P = Primitives

  class StringPIO {
    var value: string

    constructor (v: string)
      ensures value == v
    {
      value := v;
    }

    function Snapshot(): P.Primitive reads this { P.StringPio(value) }
    function Get(): string reads this { value }
    function ToString(): string reads this { P.ToString(Snapshot()) }
    function GetName(): string reads this { P.GetName(Snapshot()) }

    method Set(v: string)
      modifies this
      ensures value == v
    {
      value := v;
    }
  }

  class CodePIO {
    var value: string

    /** No white space at either end of the stored code. */
    predicate Valid() reads this { Trim(value) == value }

    constructor (v: string)
      ensures value == Trim(v) && Valid()
    {
      value := Trim(v);
      TrimIdempotent(v);
    }

    function Snapshot(): P.Primitive reads this { P.CodePio(value) }
    function Get(): string reads this { value }
    function ToString(): string reads this { P.ToString(Snapshot()) }
    function GetName(): string reads this { P.GetName(Snapshot()) }

    /** Stores the trimmed text; setting what `Get` returns changes nothing. */
    method Set(v: string)
      modifies this
      ensures value == Trim(v) && Valid()
      ensures old(Valid()) && v == old(value) ==> value == old(value)
    {
      TrimIdempotent(v);
      value := Trim(v);
    }
  }

  class UriPIO {
    var value: string

    constructor (v: string)
      ensures value == v
    {
      value := v;
    }

    function Snapshot(): P.Primitive reads this { P.UriPio(value) }
    function Get(): string reads this { value }
    function ToString(): string reads this { P.ToString(Snapshot()) }
    function GetName(): string reads this { P.GetName(Snapshot()) }

    method Set(v: string)
      modifies this
      ensures value == v
    {
      value := v;
    }
  }

  class UuidPIO {
    var value: string

    predicate Valid() reads this { P.IsUuid(value) }

    constructor Make(u: string)
      requires P.IsUuid(u)
      ensures value == u && Valid()
    {
      value := u;
    }

    /** `new UuidPIO(v)`: keeps the text after the last `:`, or throws. */
    static method Create(v: string) returns (r: Result<UuidPIO>)
      ensures r.Ok? <==> P.CheckUuid(v).Ok?
      ensures r.Ok? ==> fresh(r.value) && r.value.value == P.CheckUuid(v).value && r.value.Valid()
      ensures r.Err? ==> r.error == InvalidUuid
    {
      var c := P.CheckUuid(v);
      if c.Ok? {
        var o := new UuidPIO.Make(c.value);
        r := Ok(o);
      } else {
        r := Err(c.error);
      }
    }

    function Snapshot(): P.Primitive reads this { P.UuidPio(value) }
    function Get(): string reads this { value }
    function ToString(): string reads this { P.ToString(Snapshot()) }
    function GetName(): string reads this { P.GetName(Snapshot()) }

    /** A rejected text throws before anything is stored. */
    method Set(v: string) returns (outcome: Outcome)
      modifies this
      ensures outcome == Pass <==> P.CheckUuid(v).Ok?
      ensures outcome == Pass ==> value == P.CheckUuid(v).value && Valid()
      ensures outcome != Pass ==> outcome == Fail(InvalidUuid) && value == old(value)
    {
      match P.CheckUuid(v)
      case Ok(u) =>
        value := u;
        outcome := Pass;
      case Err(e) =>
        outcome := Fail(e);
    }
  }

  class BinaryPIO {
    var value: string

    /** The stored text is canonical padded base64. */
    predicate Valid() reads this { P.Valid(P.BinaryPio(value)) }

    constructor Make(v: string)
      requires P.CheckBinary(v).Ok?
      ensures value == v && Valid()
    {
      value := v;
    }

    /** `new BinaryPIO(v)`: keeps `v` when `btoa(atob(v)) === v`, or throws. */
    static method Create(v: string) returns (r: Result<BinaryPIO>)
      ensures r.Ok? <==> P.CheckBinary(v).Ok?
      ensures r.Ok? ==> fresh(r.value) && r.value.value == v && r.value.Valid()
      ensures r.Err? ==> r.error == InvalidBase64
    {
      if P.CheckBinary(v).Ok? {
        var o := new BinaryPIO.Make(v);
        r := Ok(o);
      } else {
        r := Err(InvalidBase64);
      }
    }

    function Snapshot(): P.Primitive reads this { P.BinaryPio(value) }
    function Get(): string reads this { value }
    function ToString(): string reads this { P.ToString(Snapshot()) }
    function GetName(): string reads this { P.GetName(Snapshot()) }

    method Set(v: string) returns (outcome: Outcome)
      modifies this
      ensures outcome == Pass <==> P.CheckBinary(v).Ok?
      ensures outcome == Pass ==> value == v && Valid()
      ensures outcome != Pass ==> outcome == Fail(InvalidBase64) && value == old(value)
    {
      if P.CheckBinary(v).Ok? {
        value := v;
        outcome := Pass;
      } else {
        outcome := Fail(InvalidBase64);
      }
    }
  }

  class DateTimePIO {
    var value: DateTimeFields

    predicate Valid() reads this { P.Valid(P.DateTimePio(value)) }

    constructor Make(f: DateTimeFields)
      ensures value == f
    {
      value := f;
    }

    /** `new DateTimePIO(...)`: the fields are stored, then validated; a failure throws. */
    static method Create(y: int, m: int, d: int, h: int, mi: int, s: int := 0) returns (r: Result<DateTimePIO>)
      ensures r.Ok? <==> ValidateDateTime(y, m, d, h, mi, s) == Pass
      ensures r.Ok? ==> fresh(r.value) && r.value.value == DateTimeFields(y, m, d, h, mi, s) && r.value.Valid()
      ensures r.Err? ==> Fail(r.error) == ValidateDateTime(y, m, d, h, mi, s)
    {
      var o := new DateTimePIO.Make(DateTimeFields(y, m, d, h, mi, s));
      var outcome := ValidateDateTime(y, m, d, h, mi, s);
      if outcome == Pass {
        r := Ok(o);
      } else {
        r := Err(outcome.error);
      }
    }

    function Snapshot(): P.Primitive reads this { P.DateTimePio(value) }
    function Get(): DateTimeFields reads this { value }
    function ToString(): string reads this { P.ToString(Snapshot()) }
    function GetName(): string reads this { P.GetName(Snapshot()) }

    /**
     * The fields are stored before they are validated, so a rejected `set`
     * leaves them stored and the object no longer valid.
     */
    method Set(f: DateTimeFields) returns (outcome: Outcome)
      modifies this
      ensures value == f
      ensures outcome == ValidateDateTime(f.year, f.month, f.day, f.hour, f.minute, f.second)
      ensures Valid() <==> outcome == Pass
    {
      value := f;
      outcome := ValidateDateTime(f.year, f.month, f.day, f.hour, f.minute, f.second);
    }
  }

  class DatePIO {
    var value: DateFields

    predicate Valid() reads this { P.Valid(P.DatePio(value)) }

    constructor Make(f: DateFields)
      ensures value == f
    {
      value := f;
    }

    /** `new DatePIO(y, m, d)`: the fields are stored, then validated; a failure throws. */
    static method Create(y: int, m: int, d: int) returns (r: Result<DatePIO>)
      ensures r.Ok? <==> ValidDate(y, m, d)
      ensures r.Ok? ==> fresh(r.value) && r.value.value == DateFields(y, m, d) && r.value.Valid()
      ensures r.Err? ==> r.error == DateValidationFailed
    {
      var o := new DatePIO.Make(DateFields(y, m, d));
      var outcome := ValidateDateTime(y, m, d);
      if outcome == Pass {
        r := Ok(o);
      } else {
        r := Err(outcome.error);
      }
    }

    function Snapshot(): P.Primitive reads this { P.DatePio(value) }
    function Get(): DateFields reads this { value }
    function ToString(): string reads this { P.ToString(Snapshot()) }
    function GetName(): string reads this { P.GetName(Snapshot()) }

    /** As for `DateTimePIO`: a rejected `set` leaves the rejected fields stored. */
    method Set(f: DateFields) returns (outcome: Outcome)
      modifies this
      ensures value == f
      ensures outcome == ValidateDateTime(f.year, f.month, f.day)
      ensures Valid() <==> outcome == Pass
    {
      value := f;
      outcome := ValidateDateTime(f.year, f.month, f.day);
    }
  }

  class BooleanPIO {
    var value: bool

    constructor (b: bool)
      ensures value == b
    {
      value := b;
    }

    function Snapshot(): P.Primitive reads this { P.BooleanPio(value) }
    function Get(): bool reads this { value }
    function ToString(): string reads this { P.ToString(Snapshot()) }
    function GetName(): string reads this { P.GetName(Snapshot()) }

    method Set(b: bool)
      modifies this
      ensures value == b
    {
      value := b;
    }
  }

  class IntegerPIO {
    var value: int

    /** `Math.trunc` on construction. */
    constructor (x: real)
      ensures value == P.Trunc(x)
    {
      value := P.Trunc(x);
    }

    function Snapshot(): P.Primitive reads this { P.IntegerPio(value) }
    function Get(): int reads this { value }
    function ToString(): string reads this { P.ToString(Snapshot()) }
    function GetName(): string reads this { P.GetName(Snapshot()) }

    method Set(x: real)
      modifies this
      ensures value == P.Trunc(x)
    {
      value := P.Trunc(x);
    }
  }

  class DecimalPIO {
    var value: string

    constructor (literal: string)
      ensures value == literal
    {
      value := literal;
    }

    function Snapshot(): P.Primitive reads this { P.DecimalPio(value) }
    function Get(): string reads this { value }
    function ToString(): string reads this { P.ToString(Snapshot()) }
    function GetName(): string reads this { P.GetName(Snapshot()) }

    method Set(literal: string)
      modifies this
      ensures value == literal
    {
      value := literal;
    }
  }

  class UnsignedIntegerPIO {
    var value: int

    predicate Valid() reads this { value >= 0 }

    constructor Make(n: int)
      requires n >= 0
      ensures value == n && Valid()
    {
      value := n;
    }

    /** `new UnsignedIntegerPIO(x)`: truncates, then throws if the result is negative. */
    static method Create(x: real) returns (r: Result<UnsignedIntegerPIO>)
      ensures r.Ok? <==> x > -1.0
      ensures r.Ok? ==> fresh(r.value) && r.value.value == P.Trunc(x) && r.value.Valid()
      ensures r.Err? ==> r.error == NegativeUnsigned
    {
      var c := P.CheckUnsigned(P.Trunc(x));
      if c.Ok? {
        var o := new UnsignedIntegerPIO.Make(c.value);
        r := Ok(o);
      } else {
        r := Err(c.error);
      }
    }

    function Snapshot(): P.Primitive reads this { P.UnsignedIntegerPio(value) }
    function Get(): int reads this { value }
    function ToString(): string reads this { P.ToString(Snapshot()) }
    function GetName(): string reads this { P.GetName(Snapshot()) }

    /** A negative result throws before anything is stored. */
    method Set(x: real) returns (outcome: Outcome)
      modifies this
      ensures outcome == Pass <==> x > -1.0
      ensures outcome == Pass ==> value == P.Trunc(x)
      ensures outcome != Pass ==> outcome == Fail(NegativeUnsigned) && value == old(value)
      ensures old(Valid()) ==> Valid()
    {
      match P.CheckUnsigned(P.Trunc(x))
      case Ok(n) =>
        value := n;
        outcome := Pass;
      case Err(e) =>
        outcome := Fail(e);
    }
  }

  class MarkdownPIO {
    var value: string

    constructor (v: string)
      ensures value == v
    {
      value := v;
    }

    function Snapshot(): P.Primitive reads this { P.MarkdownPio(value) }
    function Get(): string reads this { value }
    function ToString(): string reads this { P.ToString(Snapshot()) }
    function GetName(): string reads this { P.GetName(Snapshot()) }

    method Set(v: string)
      modifies this
      ensures value == v
    {
      value := v;
    }
  }
}
