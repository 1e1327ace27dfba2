# Primitive data types and their helpers, modelled in Dafny

The modelled library keeps the values of a medical document tree in twelve
small "primitive data" classes: `StringPIO`, `CodePIO`, `UriPIO`, `UuidPIO`,
`BinaryPIO`, `DateTimePIO`, `DatePIO`, `BooleanPIO`, `IntegerPIO`,
`DecimalPIO`, `UnsignedIntegerPIO` and `MarkdownPIO`. Each class holds one
`_value`. Each has a constructor that normalises or checks the value, a static
`parseFromString`, and `toString`, `get`, `set` and `getName`. Next to the
classes, `Helper.ts` does four things:

- It validates and formats dates and times (`validateDateTime`,
  `dateTimeIntegerToString`, `buildDateTimeString`, `parseStringToDateObject`).
- It recognises instances of the twelve classes (`isPrimitiveDataType`).
- It capitalises words (`capitalize`).
- It converts SubTrees to and from the plain objects sent to the backend
  (`addInformationAboutPrimitiveDataTypes`, `transformToSubTree`).

On the wire, a datum travels as its `toString()` text, tagged with its class
name. On the way back, the class found under that tag parses the text again.

The project is split into these modules:

- `outcomes.dfy` (`Outcomes`): `Option`, `Result` and `Outcome`. Each distinct throw
  of the source has its own error constructor. Two errors are the model's
  own: `NotANumber`, for text `parseInt` reads without an error but the model
  gives no number to, and `DateValidationFailed` for a non-numeric date field
  in the corrected date parser (see "## Findings").
- `text.dfy` (`Text`): the JavaScript string operations the core relies on.
  These are `Number` and `parseInt` on digit strings, `toString` of an
  integer, `split`/`join`/`pop`/`slice` on one separator character, `trim`,
  and ASCII case mapping.
- `base64.dfy` (`Base64`): the host `btoa`/`atob` behind
  `BinaryPIO.checkValue`. `btoa` is the padded encoding of section 4 of RFC
  4648. `atob` is the forgiving decoder: it drops white space and trailing
  `=`, and discards leftover bits.
- `date_time_helper.dfy` (`DateTimeHelper`): the date and time half of
  `Helper.ts`.
- `primitives.dfy` (`Primitives`): the pure behaviour of the twelve classes on
  values. This covers the checks, constructors, `parseFromString`,
  `toString` and `getName`, the lookup of a class by name, and the decoding
  round trip.
- `pio_objects.dfy` (`PioObjects`): the twelve classes as Dafny classes with a
  mutable `value` field. A constructor that can throw is a static `Create`
  that returns a `Result`. A `set` that can throw returns an `Outcome`.
- `helper.dfy` (`Helper`): `capitalize` and `isPrimitiveDataType`.
- `wire_codec.dfy` (`WireCodec`): `addInformationAboutPrimitiveDataTypes` and
  `transformToSubTree` on SubTree values, and their round trip.

A throw is an `Err`/`Fail` result. JavaScript numbers are integers, except the
arguments of the truncating integer constructors, which are reals.

Where the code and its documentation disagree, the model follows the code:

- `parseStringToDateObject` reads a text with two or more `T` as a date only,
  without error. It does not reject it (`DateTimeHelper.SecondTDropsTime`).
- `DateTimePIO.set` and `DatePIO.set` store the new fields before validating
  them. A rejected `set` therefore leaves the rejected fields in the object
  (`PioObjects.DateTimePIO.Set`).

## Model

| member | source | states |
|---|---|---|
| Text.DigitChar | src/Helper.ts:97 | the character of a digit value is a digit character with that value |
| Text.NatToString | src/Helper.ts:99 | `toString` of a non-negative integer is a non-empty digit string that starts with `0` only for zero |
| Text.IntToString | src/Helper.ts:129 | `toString` of an integer: digits, preceded by `-` exactly for negative numbers |
| Text.Number | src/Helper.ts:173-175 | `Number` gives a value exactly for non-empty digit strings |
| Text.ParseInt | src/PrimitiveDataTypes.ts:676 | `parseInt` gives a value only for text that starts with a digit or a sign |
| Text.ParseDigitsOfNatToString | src/Helper.ts:173-175 | reading back the printed form of a natural number gives that number |
| Text.ParseDigitsPositive | src/Helper.ts:173-175 | a digit string without a leading zero has a positive value |
| Text.NatToStringOfParseDigits | src/Helper.ts:173-175 | a digit string without a leading zero is the printed form of its value |
| Text.NatToStringFourDigits | src/Helper.ts:129 | a year from 1000 to 9999 prints as four characters |
| Text.NatToStringTwoDigits | src/Helper.ts:99 | a number from 10 to 99 prints as two characters |
| Text.ParseIntOfNegative | src/PrimitiveDataTypes.ts:676 | `parseInt` reads back the text of a negative integer above -10^21 |
| Text.ParseIntOfMinus | src/PrimitiveDataTypes.ts:676 | `parseInt` of `-` followed by digits is the negated value of the digits |
| Text.ParseIntOfNatural | src/PrimitiveDataTypes.ts:676 | `parseInt` reads back the text of a non-negative integer below 10^21 |
| Text.ParseIntOfIntToString | src/PrimitiveDataTypes.ts:676 | `parseInt` reads back the text of every integer that prints without an exponent (magnitude below 10^21) |
| Text.Split | src/Helper.ts:169-170 | `split` on one character always gives at least one piece (the join round trip is `Text.JoinSplit`) |
| Text.SplitWithoutSeparator | src/Helper.ts:169 | a text without the separator splits into itself alone |
| Text.SplitConcat | src/Helper.ts:169-170 | a separator-free text, the separator and a rest split into that text followed by the pieces of the rest |
| Text.JoinSplit | src/Helper.ts:231 | joining the pieces of a split with the same character gives back the text |
| Text.SplitPiecesAvoidSeparator | src/PrimitiveDataTypes.ts:217 | no piece of a split contains the separator |
| Text.LastSegmentAvoidsSeparator | src/PrimitiveDataTypes.ts:217 | `pop()` after `split` gives a piece without the separator, and the whole text when it has none |
| Text.LastSegmentOfAppend | src/PrimitiveDataTypes.ts:217 | `pop()` after `split` gives the part after the last separator when that part has none |
| Text.BeforeFirstOfAppend | src/Helper.ts:230 | `split("[")[0]` stops at the first separator |
| Text.DropLastSegmentOfAppend | src/Helper.ts:231 | `split(".").slice(0, -1).join(".")` removes exactly the last segment |
| Text.TrimStart | src/PrimitiveDataTypes.ts:91 | removing leading white space gives a suffix that does not start with white space |
| Text.TrimEnd | src/PrimitiveDataTypes.ts:91 | removing trailing white space gives a prefix that does not end with white space |
| Text.Trim | src/PrimitiveDataTypes.ts:91 | `trim()` gives a contiguous slice of the text with no white space at either end |
| Text.TrimStartFixed | src/PrimitiveDataTypes.ts:91 | removing leading white space from a text without any changes nothing |
| Text.TrimEndFixed | src/PrimitiveDataTypes.ts:91 | removing trailing white space from a text without any changes nothing |
| Text.TrimIdempotent | src/PrimitiveDataTypes.ts:123-125 | trimming twice is trimming once |
| Text.LowerChar | src/PrimitiveDataTypes.ts:597 | an upper-case ASCII letter becomes the lower-case letter 32 code points above; any other character is kept; the result is never upper case |
| Text.UpperChar | src/Helper.ts:13-14 | a lower-case ASCII letter becomes the upper-case letter 32 code points below; any other character is kept; the result is never lower case |
| Text.ToLower | src/PrimitiveDataTypes.ts:597 | `toLowerCase()` keeps the length, leaves no upper-case letter, maps each upper-case letter to its lower-case partner and keeps every other character |
| Text.ToLowerIdempotent | src/PrimitiveDataTypes.ts:597 | lowering twice is lowering once |
| Base64.SymbolChar | src/PrimitiveDataTypes.ts:328 | each 6-bit value maps to a base64 alphabet character |
| Base64.SymbolValue | src/PrimitiveDataTypes.ts:328 | each alphabet character maps back to the value that produces it |
| Base64.SymbolValueOfChar | src/PrimitiveDataTypes.ts:328 | value and character are inverse mappings |
| Base64.Quad | src/PrimitiveDataTypes.ts:328 | a group of three bytes encodes as four alphabet characters |
| Base64.EncodeSymbols | src/PrimitiveDataTypes.ts:328 | unpadded encoding uses only alphabet characters, with a length of 0, 2 or 3 modulo 4 by the byte count |
| Base64.Btoa | src/PrimitiveDataTypes.ts:328 | `btoa` output has a length divisible by four and holds only alphabet characters and `=` |
| Base64.RemoveAsciiWhitespace | src/PrimitiveDataTypes.ts:328 | `atob` first removes all ASCII white space, which never lengthens the text |
| Base64.FirstByteOfQuad | src/PrimitiveDataTypes.ts:328 | the first two characters of a group decode to its first byte |
| Base64.SecondByteOfQuad | src/PrimitiveDataTypes.ts:328 | the second and third characters decode to the second byte |
| Base64.ThirdByteOfQuad | src/PrimitiveDataTypes.ts:328 | the last two characters decode to the third byte |
| Base64.DecodeEncodeOne | src/PrimitiveDataTypes.ts:328 | a lone trailing byte decodes back |
| Base64.DecodeEncodeTwo | src/PrimitiveDataTypes.ts:328 | two trailing bytes decode back |
| Base64.DecodeGroupPrefix | src/PrimitiveDataTypes.ts:328 | decoding is group by group: four characters in front add three bytes in front |
| Base64.DecodeQuadPrefix | src/PrimitiveDataTypes.ts:328 | an encoded group in front of any symbol text decodes to its three bytes in front |
| Base64.EncodeSymbolsGroup | src/PrimitiveDataTypes.ts:328 | three or more bytes are encoded one group at a time |
| Base64.DecodeEncodeGroup | src/PrimitiveDataTypes.ts:328 | the symbols of three or more bytes decode to the first three bytes followed by the decoding of the rest |
| Base64.DecodeEncodeSymbols | src/PrimitiveDataTypes.ts:328 | decoding the symbols of any byte sequence gives that sequence back |
| Base64.Atob | src/PrimitiveDataTypes.ts:328 | `atob` gives at most three bytes per four characters, and nothing for the empty text |
| Base64.RemoveWhitespaceKeeps | src/PrimitiveDataTypes.ts:328 | text without white space passes through the white-space removal unchanged |
| Base64.AtobOfBtoa | src/PrimitiveDataTypes.ts:328 | `atob(btoa(b))` is `b` for every byte sequence |
| Base64.RoundTripsIffEncoding | src/PrimitiveDataTypes.ts:326-331 | `btoa(atob(v)) === v` without a throw holds exactly when `v` is the `btoa` of some bytes |
| Base64.RoundTripsShape | src/PrimitiveDataTypes.ts:326-331 | a text that passes has a length divisible by four and no white space |
| Base64.BtoaOfThreeBytes | src/PrimitiveDataTypes.ts:328 | `btoa("ABC")` is `QUJD` |
| Base64.ExampleFullGroup | src/PrimitiveDataTypes.ts:326-331 | `QUJD` passes the check |
| Base64.ExampleStrayPadding | tests/PrimitiveDataTypes.test.ts:212 | a stray `=` after a full group is refused |
| Base64.BtoaOfOneByte | src/PrimitiveDataTypes.ts:328 | `btoa("A")` is `QQ==` |
| Base64.ExampleOneBytePadded | src/PrimitiveDataTypes.ts:326-331 | `QQ==` passes the check |
| Base64.ExampleOneByteUnpadded | src/PrimitiveDataTypes.ts:326-331 | `QQ` is decoded by `atob` but refused, because `btoa` adds the padding |
| Base64.ExampleLeftoverBits | src/PrimitiveDataTypes.ts:326-331 | `QR==` is refused, because its leftover bits are not zero |
| DateTimeHelper.MonthTable | src/Helper.ts:72-75 | the month-length table has twelve entries |
| DateTimeHelper.MonthLengths | src/Helper.ts:72-75 | the table for a year has twelve entries |
| DateTimeHelper.ValidateDateTime | src/Helper.ts:60-87 | passes exactly when date and time are valid; the date error is reported when the date is invalid, the time error only when the date is valid |
| DateTimeHelper.LeapYearRules | src/Helper.ts:75 | the leap-year test agrees with the Gregorian rule |
| DateTimeHelper.MonthLengthsAreCalendar | src/Helper.ts:72-75 | the patched table gives the calendar length of every month |
| DateTimeHelper.ValidDateIff | src/Helper.ts:68-79 | a date is valid exactly when the year is in 1000..3000, the month in 1..12 and the day within that month's length |
| DateTimeHelper.CalendarExamples | src/Helper.ts:68-86 | 29 February is accepted in 2000 and 2024 and refused in 1900 and 2001; other edges of the ranges; the date error wins over the time error |
| DateTimeHelper.DateTimeIntegerToString | src/Helper.ts:95-101 | 0..9 get a leading zero; 0..99 become two digits that read back as the number |
| DateTimeHelper.PaddingInjective | src/Helper.ts:95-101 | two numbers in 0..99 with the same padded text are equal |
| DateTimeHelper.BuildDateTimeString | src/Helper.ts:119-151 | succeeds exactly for the modes "date" and "date_time" (otherwise "Wrong mode"); gives the date text, or the date text, `T` and the time text |
| DateTimeHelper.DateModeIgnoresTime | src/Helper.ts:133-136 | in "date" mode the time arguments make no difference |
| DateTimeHelper.YearTextExample | src/Helper.ts:129 | 2023 prints as "2023" |
| DateTimeHelper.DateStringExample | src/Helper.ts:116 | the date text of 2023-9-21 is "2023-09-21" |
| DateTimeHelper.TimeStringExample | src/Helper.ts:142-146 | the time text of 12:30:5 is "12:30:05" |
| DateTimeHelper.BuildDateExample | src/Helper.ts:116 | `buildDateTimeString('date', 2023, 9, 21)` is "2023-09-21" |
| DateTimeHelper.BuildDateTimeExample | src/Helper.ts:117 | the "date_time" example gives "2023-09-21T12:30:05"; an unknown mode throws |
| DateTimeHelper.FindTimeFrom | src/Helper.ts:178 | finds the leftmost `\d{2}:\d{2}:\d{2}` match at or after an index, or reports that there is none |
| DateTimeHelper.FindTime | src/Helper.ts:178 | the regular-expression match is the leftmost one; there is none exactly when no index matches |
| DateTimeHelper.ParseStringToDateObject | src/Helper.ts:168-197 | the shape error exactly when the date part is not 4-2-2; the missing-time error exactly for one `T` without a time match; without a single `T`, the date fields read from the text, or the date error; with one `T` and a time match, the date error first, then the time error, otherwise the date and time fields read from the text |
| DateTimeHelper.DigitsAvoid | src/Helper.ts:169-180 | digit text holds none of the separators `T`, `-` and `:` |
| DateTimeHelper.DateStringPieces | src/Helper.ts:129-131 | the date text splits on `-` into year, month and day texts that read back as the numbers |
| DateTimeHelper.ParseDateString | src/Helper.ts:168-197 | the text built in "date" mode parses back to its fields, or fails date validation |
| DateTimeHelper.TimeStringPieces | src/Helper.ts:139-147 | the time text starts with a time match whose pieces read back as hour, minute and second |
| DateTimeHelper.ParseOfPieces | src/Helper.ts:168-187 | a text whose date pieces and time match are known parses to those numbers, subject to validation |
| DateTimeHelper.ParseDateTimeString | src/Helper.ts:168-187 | the text built in "date_time" mode, followed by any `T`-free text such as `Z`, parses back to its fields, or fails with the validation error |
| DateTimeHelper.ParseDateTimeStringPlain | src/Helper.ts:168-187 | the same without a suffix |
| DateTimeHelper.ParseWithoutSingleT | src/Helper.ts:177-192 | with no `T` or with several, only the text before the first `T` counts |
| DateTimeHelper.SecondTDropsTime | src/Helper.ts:177-192 | a second `T` after a full date-time turns the result into the date alone, without error |
| DateTimeHelper.ValidDateAsWrittenOnNumbers | src/Helper.ts:68-79 | on numbers, the check as written with NaN comparisons is the date check |
| DateTimeHelper.NonNumericYearAcceptedAsWritten | src/Helper.ts:70-78 | as written, the year NaN of "abcd" passes the range checks, so "abcd-01-01" is accepted |
| DateTimeHelper.NonNumericDateFieldRejected | src/Helper.ts:172-192 | the corrected parser refuses every date whose year, month or day is not a number |
| Primitives.ClassByName | src/Helper.ts:219 | the class found under a tag has that name; no class is found exactly when no class has that name |
| Primitives.ClassByNameOfName | src/Helper.ts:219 | every class is found under the name `getName` gives it |
| Primitives.GetName | src/PrimitiveDataTypes.ts:69-71 | `getName()` is a name under which the class lookup finds the instance's own class |
| Primitives.CheckUuid | src/PrimitiveDataTypes.ts:215-218 | accepts exactly when the text after the last `:` is a UUID, and keeps that text, which holds no `:` |
| Primitives.CheckBinary | src/PrimitiveDataTypes.ts:326-331 | accepts exactly the texts that `btoa` can produce, and keeps them unchanged |
| Primitives.Trunc | src/PrimitiveDataTypes.ts:660 | `Math.trunc` rounds toward zero: within one of the argument, on the zero side |
| Primitives.TruncExamples | tests/PrimitiveDataTypes.test.ts:385-420 | 7.3 and 6.5 become 7 and 6; -2.3 and -1.7 become -2 and -1 |
| Primitives.CheckUnsigned | src/PrimitiveDataTypes.ts:808-814 | accepts exactly the non-negative numbers, unchanged |
| Primitives.NewCode | src/PrimitiveDataTypes.ts:90-92 | the stored code is the trimmed text |
| Primitives.NewUuid | src/PrimitiveDataTypes.ts:215-218 | an instance exists exactly when the text after the last `:` is a UUID, and holds that text; a failure is "not a valid uuid" |
| Primitives.NewBinary | src/PrimitiveDataTypes.ts:305-331 | an instance exists exactly when the text is what `btoa` gives for some bytes, and holds the text unchanged; a failure is "not a valid base64 string" |
| Primitives.NewDateTime | src/PrimitiveDataTypes.ts:388-404 | an instance exists exactly for valid date and time and holds the given fields; otherwise the validation error |
| Primitives.NewDate | src/PrimitiveDataTypes.ts:501-508 | an instance exists exactly for a valid date and holds the given fields |
| Primitives.NewInteger | src/PrimitiveDataTypes.ts:659-661 | the stored number is the argument rounded toward zero: on the zero side, within one of it |
| Primitives.NewUnsignedInteger | src/PrimitiveDataTypes.ts:797-814 | an instance exists exactly for arguments above -1 and holds the truncated number |
| Primitives.ParseBoolean | src/PrimitiveDataTypes.ts:595-606 | case-insensitive "true" or "false" and nothing else; the value is whether it was "true" |
| Primitives.ParseInteger | src/PrimitiveDataTypes.ts:671-681 | text with `.` or `,` is refused as a decimal; an accepted number is what `parseInt` reads |
| Primitives.ToString | src/PrimitiveDataTypes.ts:688-690 | the text of an integer or unsigned integer holds no `.` or `,` |
| Primitives.ParseDateTime | src/PrimitiveDataTypes.ts:411-429 | a parser error is passed on; a date with a time gives those fields; a date alone gives that date at midnight |
| Primitives.ParseDate | src/PrimitiveDataTypes.ts:517-528 | a parser error is passed on; a date alone gives those fields; a date with a time is refused with the time error |
| Primitives.ParsePresent | src/PrimitiveDataTypes.ts:37-906 | `parseFromString` on non-empty text: the instance belongs to the class asked for; the five text classes always succeed; UUID, base64 and boolean succeed exactly when their checks pass; an integer text with `.` or `,` is the decimal error; an unsigned result is never negative |
| Primitives.ParseFromString | src/PrimitiveDataTypes.ts:37-39 | `undefined` or `""` gives no instance; an instance it gives belongs to the class asked for and is valid |
| Primitives.ParsePresentValid | src/PrimitiveDataTypes.ts:411-429 | whatever a decoder accepts is a valid instance of its class |
| Primitives.UuidAvoidsColon | src/PrimitiveDataTypes.ts:247-253 | a UUID holds no `:` |
| Primitives.UuidPrefixDropped | src/PrimitiveDataTypes.ts:215-218 | a `urn:uuid:` prefix makes no difference to what is stored |
| Primitives.UuidStoredWithoutPrefix | src/PrimitiveDataTypes.ts:259-261 | a stored UUID has no prefix; `toString` adds one, and checking that text again stores the same UUID |
| Primitives.IntegerTextHasNoSeparator | src/PrimitiveDataTypes.ts:673 | the text of an integer never trips the decimal check |
| Primitives.DecodeCodeText | src/PrimitiveDataTypes.ts:99-101 | a trimmed code decodes from its own text |
| Primitives.DecodeUuidText | src/PrimitiveDataTypes.ts:235-261 | a UUID decodes from its `urn:uuid:` text |
| Primitives.DateTimeOfObject | src/PrimitiveDataTypes.ts:413-422 | text parsed as a date with a time becomes the date-time instance with those fields |
| Primitives.DateOfTimeObject | src/PrimitiveDataTypes.ts:517-522 | non-empty text parsed as a date with a time is refused by `DatePIO.parseFromString` |
| Primitives.DateTimeTextReadsBack | src/PrimitiveDataTypes.ts:435-441 | the text of a valid date-time parses back to its fields |
| Primitives.DecodeDateTimeText | src/PrimitiveDataTypes.ts:411-441 | a valid date-time decodes from its `toString` text |
| Primitives.DecodeDateText | src/PrimitiveDataTypes.ts:517-534 | a valid date decodes from its `toString` text |
| Primitives.DecodeBooleanText | src/PrimitiveDataTypes.ts:595-615 | a boolean decodes from its `toString` text |
| Primitives.DecodeIntegerText | src/PrimitiveDataTypes.ts:671-690 | an integer of magnitude below 10^21 decodes from its `toString` text |
| Primitives.DecodeOfEncode | src/PrimitiveDataTypes.ts:37-931 | every valid instance decodes, through its own class, from its `toString` text; integers only below 10^21 in magnitude |
| Primitives.ParseFromStringOfToString | src/Helper.ts:217-221 | the class found under `getName()`, given the non-empty `toString()` text, gives back the instance; integers only below 10^21 in magnitude |
| Primitives.CodeTrimmed | src/PrimitiveDataTypes.ts:90-92 | constructing a code from a code's own text changes nothing |
| Primitives.BooleanExamples | src/PrimitiveDataTypes.ts:595-606 | "TRUE" and "False" are read regardless of case; "yes" is refused |
| Primitives.BooleanIgnoresCase | src/PrimitiveDataTypes.ts:597 | the boolean decoder gives the same result on a text and on its lower-case form |
| Primitives.PlainDateTimeReadsBack | src/Helper.ts:168-187 | a valid date and time written without a zone parses back to its fields |
| Primitives.DateRefusesTime | src/PrimitiveDataTypes.ts:517-522 | a valid date-time text is refused by `DatePIO.parseFromString` because of its time part |
| Primitives.DateTimeDefaultsToMidnight | src/PrimitiveDataTypes.ts:423-425 | a date without a time becomes a date-time at midnight |
| Primitives.ExampleTimeText | tests/PrimitiveDataTypes.test.ts:275-276 | the time text of 12:56:1 is "12:56:01" |
| Primitives.DateRoundTripExample | tests/PrimitiveDataTypes.test.ts:328-329 | "2022-03-12" parses to a date whose text is "2022-03-12" |
| Helper.Capitalize | src/Helper.ts:13-14 | throws exactly on the empty string; otherwise the same letters with the first upper case and the rest lower case |
| Helper.CapitalizeIdempotent | src/Helper.ts:13-14 | capitalising a capitalised word changes nothing |
| Helper.CapitalizeExamples | tests/Helper.test.ts:22-24 | "true" becomes "True" and "fALSE" becomes "False"; "" throws |
| Helper.IsPrimitiveDataType | src/Helper.ts:30-48 | true exactly for an instance of one of the twelve classes; arrays and records are not |
| PioObjects.StringPIO.constructor | src/PrimitiveDataTypes.ts:27-29 | the text is stored as given |
| PioObjects.StringPIO.Set | src/PrimitiveDataTypes.ts:61-63 | the new text replaces the stored one |
| PioObjects.CodePIO.constructor | src/PrimitiveDataTypes.ts:90-92 | the trimmed text is stored, and it has no white space at either end |
| PioObjects.CodePIO.Set | src/PrimitiveDataTypes.ts:123-125 | the trimmed text is stored; the trimming invariant holds after every call; setting the stored text again changes nothing |
| PioObjects.UriPIO.constructor | src/PrimitiveDataTypes.ts:152-154 | the text is stored as given |
| PioObjects.UriPIO.Set | src/PrimitiveDataTypes.ts:186-188 | the new text replaces the stored one |
| PioObjects.UuidPIO.Make | src/PrimitiveDataTypes.ts:215-218 | a checked UUID is stored |
| PioObjects.UuidPIO.Create | src/PrimitiveDataTypes.ts:215-218 | a new object exists exactly when the text after the last `:` is a UUID, and holds that UUID; otherwise "not a valid uuid" |
| PioObjects.UuidPIO.Set | src/PrimitiveDataTypes.ts:275-278 | succeeds exactly when the check accepts, storing the checked UUID; a refusal leaves the stored value unchanged |
| PioObjects.BinaryPIO.Make | src/PrimitiveDataTypes.ts:305-307 | a checked base64 text is stored |
| PioObjects.BinaryPIO.Create | src/PrimitiveDataTypes.ts:305-307 | a new object exists exactly when `btoa(atob(v)) === v`, and holds `v`; otherwise "not a valid base64 string" |
| PioObjects.BinaryPIO.Set | src/PrimitiveDataTypes.ts:354-356 | succeeds exactly when the check accepts; a refusal leaves the stored value unchanged |
| PioObjects.DateTimePIO.Make | src/PrimitiveDataTypes.ts:394-401 | the fields are stored |
| PioObjects.DateTimePIO.Create | src/PrimitiveDataTypes.ts:388-404 | a new object exists exactly when validation passes; otherwise the validation error |
| PioObjects.DateTimePIO.Set | src/PrimitiveDataTypes.ts:455-472 | the fields are stored whatever the validation says; the outcome is the validation's; the object stays valid exactly when the outcome is a pass |
| PioObjects.DatePIO.Make | src/PrimitiveDataTypes.ts:502-506 | the fields are stored |
| PioObjects.DatePIO.Create | src/PrimitiveDataTypes.ts:501-508 | a new object exists exactly for a valid date; otherwise the date error |
| PioObjects.DatePIO.Set | src/PrimitiveDataTypes.ts:548-556 | as for `DateTimePIO.set`: stored first, then validated |
| PioObjects.BooleanPIO.constructor | src/PrimitiveDataTypes.ts:583-585 | the flag is stored |
| PioObjects.BooleanPIO.Set | src/PrimitiveDataTypes.ts:629-631 | the new flag replaces the stored one |
| PioObjects.IntegerPIO.constructor | src/PrimitiveDataTypes.ts:659-661 | the truncated number is stored |
| PioObjects.IntegerPIO.Set | src/PrimitiveDataTypes.ts:705-707 | the truncated number replaces the stored one |
| PioObjects.DecimalPIO.constructor | src/PrimitiveDataTypes.ts:734-736 | the decimal is stored |
| PioObjects.DecimalPIO.Set | src/PrimitiveDataTypes.ts:768-770 | the new decimal replaces the stored one |
| PioObjects.UnsignedIntegerPIO.Make | src/PrimitiveDataTypes.ts:797-799 | a checked non-negative number is stored |
| PioObjects.UnsignedIntegerPIO.Create | src/PrimitiveDataTypes.ts:797-814 | a new object exists exactly for arguments above -1, and holds the truncated number; otherwise "value is negative" |
| PioObjects.UnsignedIntegerPIO.Set | src/PrimitiveDataTypes.ts:855-857 | succeeds exactly for arguments above -1; a refusal leaves the stored value unchanged; the stored value is never negative |
| PioObjects.MarkdownPIO.constructor | src/PrimitiveDataTypes.ts:886-888 | the text is stored as given |
| PioObjects.MarkdownPIO.Set | src/PrimitiveDataTypes.ts:921-923 | the new text replaces the stored one |
| WireCodec.NewSubTree | src/Helper.ts:235 | a fresh node has the path asked for, no added paths, no datum and no children, and is named by the last `.` segment of its path |
| WireCodec.NewSubTreeName | src/Helper.ts:235 | that name holds no `.`; it is the whole path when the path has none, and the appended name when the path ends in `.` and a dot-free name |
| WireCodec.ChildPath | src/Helper.ts:229-234 | a child whose element name before `[` repeats its parent's is placed beside the parent; any other child is placed below it |
| WireCodec.DecodeData | src/Helper.ts:217-225 | absent or empty data give no datum; an unknown or missing tag fails; a known tag gives what that class's `parseFromString` gives, and its refusal wrapped as "Error transforming data"; a decoded datum is valid and carries the name of its tag |
| WireCodec.Transform | src/Helper.ts:214-240 | a node whose datum fails fails with that error; a rebuilt node has the path asked for and the decoded datum |
| WireCodec.TransformChildren | src/Helper.ts:227-238 | the rebuilt children from an index on are one per remaining payload child |
| WireCodec.TransformToSubTree | src/Helper.ts:207-249 | the result is the tree the recursive specification gives, rooted at the payload's own path |
| WireCodec.TransformRecursive | src/Helper.ts:214-240 | the loop over the children builds exactly the tree the recursive specification gives |
| WireCodec.TransformShape | src/Helper.ts:214-240 | the rebuilt node has the path asked for, the payload's added paths and one child per payload child |
| WireCodec.TransformNode | src/Helper.ts:214-240 | a rebuilt node is a fresh node for its path, filled with the payload's added paths, the decoded datum and the rebuilt children |
| WireCodec.ChildrenShape | src/Helper.ts:227-238 | the rebuilt children match the payload children one to one |
| WireCodec.TransformAllOrNothing | src/Helper.ts:214-240 | a tree is rebuilt exactly when every node's data decode |
| WireCodec.ChildrenAllOrNothing | src/Helper.ts:227-238 | the children are rebuilt exactly when every child's subtree decodes |
| WireCodec.TransformErrorWrapped | src/Helper.ts:222-224 | with a decoder that wraps its errors, every failure of the transformation is wrapped |
| WireCodec.ChildrenErrorWrapped | src/Helper.ts:222-224 | the same for the children |
| WireCodec.TransformFailsWrapped | src/Helper.ts:207-249 | `transformToSubTree` fails exactly when some node fails to decode, and always with "Error transforming data" |
| WireCodec.Annotate | src/Helper.ts:263-273 | paths, added paths and the number of children are kept; a datum becomes its `toString()` text tagged with its `getName()` |
| WireCodec.AnnotateChildren | src/Helper.ts:268-272 | one annotated child per child |
| WireCodec.AnnotateTree | src/Helper.ts:263-273 | the loop annotates exactly as the recursive specification |
| WireCodec.AddInformationAboutPrimitiveDataTypes | src/Helper.ts:258-285 | one annotated copy per tree, in the same order |
| WireCodec.RebuildOfAnnotate | src/Helper.ts:214-273 | a decoder that reads back every annotated node rebuilds a tree with consistent paths exactly |
| WireCodec.RebuildChildren | src/Helper.ts:227-238 | when every payload child from an index on rebuilds to the matching tree of a list, the children from that index on rebuild to that list |
| WireCodec.ChildrenStep | src/Helper.ts:227-238 | one rebuilt child in front of the rebuilt rest gives the children from its index |
| WireCodec.ChildOfAnnotated | src/Helper.ts:229-272 | an annotated child is the annotation of the child, sits at the path the rebuild gives it, and keeps consistent paths and readable data |
| WireCodec.AnnotatedDataDecode | src/Helper.ts:217-221 | the data decoder reads back every datum `addInformationAboutPrimitiveDataTypes` writes, integers only below 10^21 in magnitude |
| WireCodec.TransformOfAnnotate | src/Helper.ts:207-285 | what `addInformationAboutPrimitiveDataTypes` sends, `transformToSubTree` rebuilds unchanged, for trees with consistent paths whose integers are below 10^21 in magnitude |
| WireCodec.EmptyTextDropped | src/Helper.ts:217 | a datum whose text is empty does not survive the trip |
| WireCodec.UnknownTagFails | tests/Helper.test.ts:443 | a datum tagged "WrongPIO" makes the transformation fail with a wrapped error |
| WireCodec.RefusedDatumFails | src/Helper.ts:218-224 | a datum its class refuses makes the transformation fail with that refusal, wrapped |
| WireCodec.RefusedUuidFails | src/Helper.ts:218-224 | a datum "x" tagged "UuidPIO" fails with the wrapped "not a valid uuid" error |
| WireCodec.ChildBesideParent | src/Helper.ts:230-233 | an element `name[i]` of a field `name` is placed at the field's own level |
| WireCodec.ChildBelowParent | src/Helper.ts:234 | any other child is placed below its parent |

## Left out

- The HTTP layer and the SubTree class itself (`src/SubTree.ts` is not part
  of this model). A SubTree is a node record with path, last path element,
  added paths, datum and children. `new SubTree(path, undefined)` is a node
  named by the last `.` segment of its path.
- `cloneDeep` and the in-place filling of fresh nodes. Trees are values, so
  the model does not capture aliasing between the input and the result.
- `UuidPIO.generateUuid`: it calls a random UUID generator, which is outside
  the model.
- Primitives.CheckUuid: the library's `validate` also checks the version and
  variant digits. The model checks only the 8-4-4-4-12 hexadecimal shape.
- `DecimalPIO`: floating point is not modelled. A decimal is kept as the text
  it was written as. `parseFloat` and `toString` on it are the identity.
- Primitives.ParseInteger: `parseInt` is modelled only on an optional sign
  followed by digits. Text that `parseInt` reads only partly (`"12abc"`), or
  not at all (`NaN`), is refused with an error, where the source stores the
  leading number or `NaN`. The same holds for text `parseInt` reads in full:
  leading white space (`" 12"` is 12) and a hexadecimal prefix (`"0x1A"` is
  26). Digits beyond the 2^53 precision of a JavaScript number are not
  rounded.
- Text.IntToString: JavaScript prints an integral number of magnitude 10^21
  or more in exponent notation (`1e+21`), and numbers above 2^53 are not
  exact. The model prints every integer in plain digits and keeps integers
  exact.
- Text.ParseIntOfNegative: proved only above -10^21 (`Text.PrintsPlain`).
  From there the source prints `-1e+21`, which `parseInt` reads as -1.
- Text.ParseIntOfNatural: proved only below 10^21. From there the source
  prints `1e+21`, which `parseInt` reads as 1.
- Text.ParseIntOfIntToString: proved only for magnitudes below 10^21, for the
  same reason.
- Primitives.DecodeIntegerText: proved only for magnitudes below 10^21.
- Primitives.DecodeOfEncode: integers read their text back only below 10^21
  in magnitude (`Primitives.PrintsPlainly`).
- Primitives.ParseFromStringOfToString: the same bound on integers.
- WireCodec.AnnotatedDataDecode: the same bound on integers
  (`WireCodec.DataSendable`).
- WireCodec.TransformOfAnnotate: the same bound on integers.
- WireCodec.TransformOfAnnotate: the round trip is also proved only for trees with
  consistent paths (`WireCodec.PathsConsistent`). A field that holds a field
  of the same name (before any `[`) is placed beside its parent by the rebuild,
  not below it, so such trees do not come back unchanged and are excluded.
- Primitives.ToString: its own contract states only that integer texts hold
  no `.` or `,`. That every class reads its own text back is
  `Primitives.DecodeOfEncode`.
- DateTimeHelper.ParseStringToDateObject: `Number` is modelled only on digit
  strings. Date fields that JavaScript's `Number` still reads (`" 1"`, `"+1"`,
  `"1e3 "`) are treated as not a number. Non-integer and NaN arguments of
  `validateDateTime` are not modelled, except in the as-written NaN check
  below.
- Helper.Capitalize: case mapping is ASCII only. Unicode letters outside
  ASCII keep their case. The same holds for `toLowerCase` in
  `BooleanPIO.parseFromString` (Text.ToLower). No non-ASCII text lowers to
  "true" or "false" in a way that would change that decoder.
- `get()` of `DateTimePIO` and `DatePIO` returns the stored record itself,
  not a copy. Mutation through that alias is not modelled.
- The exact texts of the thrown errors are not modelled: each distinct throw
  is one error constructor. `NotANumber`, and `DateValidationFailed` for a
  non-numeric date field, are not throws of the source: the first stands for
  a `parseInt` result the model does not compute, the second for the
  corrected date parser.
- `getPrimitiveDataClasses` is modelled only through its use as a lookup of a
  class by name (`Primitives.ClassByName`) and the class list `AllKinds`.
- `transformToSubTree` reaching `undefined.parseFromString` for an unknown
  tag is the wrapped `UnknownDataType` error. It is one failure, not a
  distinct `TypeError` text.

## Findings

| source | as written | input that shows it | evidently intended | confidence | as-written member | corrected member |
|---|---|---|---|---|---|---|
| src/Helper.ts:173-175 with 70 and 78 | `validateDate` compares the year with `<` and `>` only. A year text that `Number` reads as `NaN` fails both comparisons, and `NaN % 400` is not 0. So a non-numeric year passes, and the date is accepted with year `NaN`. | `parseStringToDateObject("abcd-01-01")` | a date whose year, month or day is not a number is refused | not executed | DateTimeHelper.NonNumericYearAcceptedAsWritten | DateTimeHelper.NonNumericDateFieldRejected |
