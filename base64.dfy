/**
 * The host functions `btoa` and `atob` behind `BinaryPIO.checkValue`:
 * `btoa` is the padded base64 encoding of section 4 of RFC 4648, `atob` the
 * forgiving decoder browsers and Node implement (ASCII white space is
 * dropped, one or two trailing `=` are dropped when the length is a multiple
 * of four, leftover bits are discarded).
 */
module Base64 {
  import opened Outcomes

  type Byte = x: int | 0 <= x < 256

  /** The 64 characters of the base64 alphabet. */
  predicate IsSymbol(c: char)
  {
    ('A' <= c <= 'Z') || ('a' <= c <= 'z') || ('0' <= c <= '9') || c == '+' || c == '/'
  }

  predicate AllSymbols(s: string) { forall i :: 0 <= i < |s| ==> IsSymbol(s[i]) }

  function SymbolChar(v: int): (c: char)
    requires 0 <= v < 64
    ensures IsSymbol(c)
  {
    if v < 26 then ('A' as int + v) as char
    else if v < 52 then ('a' as int + (v - 26)) as char
    else if v < 62 then ('0' as int + (v - 52)) as char
    else if v == 62 then '+'
    else '/'
  }

  function SymbolValue(c: char): (v: int)
    requires IsSymbol(c)
    ensures 0 <= v < 64 && SymbolChar(v) == c
  {
    if 'A' <= c <= 'Z' then c as int - 'A' as int
    else if 'a' <= c <= 'z' then c as int - 'a' as int + 26
    else if '0' <= c <= '9' then c as int - '0' as int + 52
    else if c == '+' then 62
    else 63
  }

  lemma SymbolValueOfChar(v: int)
    requires 0 <= v < 64
    ensures SymbolValue(SymbolChar(v)) == v
  {
  }

  // -------------------------------------------------------------- encoding

  /** The four symbols of one full group of three bytes. */
  function Quad(b0: Byte, b1: Byte, b2: Byte): (r: string)
    ensures |r| == 4 && AllSymbols(r)
  {
    [SymbolChar(b0 / 4), SymbolChar((b0 % 4) * 16 + b1 / 16),
     SymbolChar((b1 % 16) * 4 + b2 / 64), SymbolChar(b2 % 64)]
  }

  /** Base64 symbols of `b` without the padding: 4 per full group of 3 bytes, 2 or 3 for the rest. */
  function EncodeSymbols(b: seq<Byte>): (r: string)
    ensures AllSymbols(r)
    ensures |r| % 4 == (if |b| % 3 == 0 then 0 else |b| % 3 + 1)
    decreases |b|
  {
    if |b| == 0 then ""
    else if |b| == 1 then Quad(b[0], 0, 0)[..2]
    else if |b| == 2 then Quad(b[0], b[1], 0)[..3]
    else Quad(b[0], b[1], b[2]) + EncodeSymbols(b[3..])
  }


  function Padding(n: nat): string
  {
    if n % 3 == 1 then "==" else if n % 3 == 2 then "=" else ""
  }

  /** `btoa`: padded base64, a multiple of four characters, all symbols or `=`. */
  function Btoa(b: seq<Byte>): (r: string)
    ensures |r| % 4 == 0
    ensures forall i :: 0 <= i < |r| ==> IsSymbol(r[i]) || r[i] == '='
  {
    var e, p := EncodeSymbols(b), Padding(|b|);
    assert forall i :: |e| <= i < |e + p| ==> (e + p)[i] == p[i - |e|];
    e + p
  }

  // -------------------------------------------------------------- decoding

  predicate IsAsciiWhitespace(c: char)
  {
    c == '\t' || c == '\n' || c == '\U{000C}' || c == '\r' || c == ' '
  }

  function RemoveAsciiWhitespace(s: string): (r: string)
    ensures |r| <= |s|
    ensures forall i :: 0 <= i < |r| ==> !IsAsciiWhitespace(r[i])
    decreases |s|
  {
    if |s| == 0 then ""
    else if IsAsciiWhitespace(s[0]) then RemoveAsciiWhitespace(s[1..])
    else [s[0]] + RemoveAsciiWhitespace(s[1..])
  }

  /** Drops a trailing `==`, or else a trailing `=`. */
  function StripPadding(d: string): (r: string)
    ensures |r| <= |d| && r == d[..|r|]
  {
    if |d| >= 2 && d[|d| - 2] == '=' && d[|d| - 1] == '=' then d[..|d| - 2]
    else if |d| >= 1 && d[|d| - 1] == '=' then d[..|d| - 1]
    else d
  }

  /** The byte held by the 6 bits of `a` and the high 2 bits of `b`. */
  function FirstByte(a: char, b: char): Byte
    requires IsSymbol(a) && IsSymbol(b)
  {
    SymbolValue(a) * 4 + SymbolValue(b) / 16
  }

  /** The byte held by the low 4 bits of `b` and the high 4 bits of `c`. */
  function SecondByte(b: char, c: char): Byte
    requires IsSymbol(b) && IsSymbol(c)
  {
    (SymbolValue(b) % 16) * 16 + SymbolValue(c) / 4
  }

  /** The byte held by the low 2 bits of `c` and the 6 bits of `d`. */
  function ThirdByte(c: char, d: char): Byte
    requires IsSymbol(c) && IsSymbol(d)
  {
    (SymbolValue(c) % 4) * 64 + SymbolValue(d)
  }

  /** Bytes of a string of symbols; a last group of 2 or 3 symbols gives 1 or 2 bytes. */
  function DecodeSymbols(d: string): (r: seq<Byte>)
    requires AllSymbols(d) && |d| % 4 != 1
    ensures |r| == |d| * 3 / 4
    decreases |d|
  {
    if |d| == 0 then []
    else if |d| == 2 then [FirstByte(d[0], d[1])]
    else if |d| == 3 then [FirstByte(d[0], d[1]), SecondByte(d[1], d[2])]
    else [FirstByte(d[0], d[1]), SecondByte(d[1], d[2]), ThirdByte(d[2], d[3])] + DecodeSymbols(d[4..])
  }

  /** `atob`: `None` where it throws; three bytes at most for every four characters. */
  function Atob(s: string): (r: Option<seq<Byte>>)
    ensures r.Some? ==> 4 * |r.value| <= 3 * |s|
    ensures s == "" ==> r == Some([])
  {
    var data := RemoveAsciiWhitespace(s);
    var data' := if |data| % 4 == 0 then StripPadding(data) else data;
    if |data'| % 4 == 1 || !AllSymbols(data') then None
    else Some(DecodeSymbols(data'))
  }

  /** `btoa(atob(v)) === v`, with a throwing `atob` counted as false. */
  predicate RoundTrips(v: string)
  {
    var d := Atob(v);
    d.Some? && Btoa(d.value) == v
  }

  // ---------------------------------------------------------------- proofs

  lemma FirstByteOfQuad(b0: Byte, b1: Byte, b2: Byte)
    ensures FirstByte(Quad(b0, b1, b2)[0], Quad(b0, b1, b2)[1]) == b0
  {
    var x, y := b0 / 4, (b0 % 4) * 16 + b1 / 16;
    SymbolValueOfChar(x);
    SymbolValueOfChar(y);
    assert FirstByte(SymbolChar(x), SymbolChar(y)) == x * 4 + y / 16;
    assert y / 16 == b0 % 4 by { assert 0 <= b1 / 16 < 16; }
  }

  lemma SecondByteOfQuad(b0: Byte, b1: Byte, b2: Byte)
    ensures SecondByte(Quad(b0, b1, b2)[1], Quad(b0, b1, b2)[2]) == b1
  {
    var y, z := (b0 % 4) * 16 + b1 / 16, (b1 % 16) * 4 + b2 / 64;
    SymbolValueOfChar(y);
    SymbolValueOfChar(z);
    assert SecondByte(SymbolChar(y), SymbolChar(z)) == (y % 16) * 16 + z / 4;
    assert y % 16 == b1 / 16 by { assert 0 <= b1 / 16 < 16; }
    assert z / 4 == b1 % 16 by { assert 0 <= b2 / 64 < 4; }
  }

  lemma ThirdByteOfQuad(b0: Byte, b1: Byte, b2: Byte)
    ensures ThirdByte(Quad(b0, b1, b2)[2], Quad(b0, b1, b2)[3]) == b2
  {
    var z, w := (b1 % 16) * 4 + b2 / 64, b2 % 64;
    SymbolValueOfChar(z);
    SymbolValueOfChar(w);
    assert ThirdByte(SymbolChar(z), SymbolChar(w)) == (z % 4) * 64 + w;
    assert z % 4 == b2 / 64 by { assert 0 <= b2 / 64 < 4; }
  }

  lemma DecodeEncodeOne(b: seq<Byte>)
    requires |b| == 1
    ensures DecodeSymbols(EncodeSymbols(b)) == b
  {
    var e := EncodeSymbols(b);
    assert e == Quad(b[0], 0, 0)[..2];
    FirstByteOfQuad(b[0], 0, 0);
    assert DecodeSymbols(e) == [FirstByte(e[0], e[1])];
  }

  lemma DecodeEncodeTwo(b: seq<Byte>)
    requires |b| == 2
    ensures DecodeSymbols(EncodeSymbols(b)) == b
  {
    var e := EncodeSymbols(b);
    assert e == Quad(b[0], b[1], 0)[..3];
    FirstByteOfQuad(b[0], b[1], 0);
    SecondByteOfQuad(b[0], b[1], 0);
    assert DecodeSymbols(e) == [FirstByte(e[0], e[1]), SecondByte(e[1], e[2])];
  }

  /** Four symbols in front of `rest` decode to three bytes in front of the bytes of `rest`. */
  lemma DecodeGroupPrefix(q: string, rest: string)
    requires |q| == 4 && AllSymbols(q) && AllSymbols(rest) && |rest| % 4 != 1
    ensures AllSymbols(q + rest) && |q + rest| % 4 != 1
    ensures DecodeSymbols(q + rest)
         == [FirstByte(q[0], q[1]), SecondByte(q[1], q[2]), ThirdByte(q[2], q[3])] + DecodeSymbols(rest)
  {
    var e := q + rest;
    assert e[4..] == rest;
  }

  /** A full group of symbols in front of `rest` decodes to its three bytes. */
  lemma DecodeQuadPrefix(b0: Byte, b1: Byte, b2: Byte, rest: string)
    requires AllSymbols(rest) && |rest| % 4 != 1
    ensures AllSymbols(Quad(b0, b1, b2) + rest) && |Quad(b0, b1, b2) + rest| % 4 != 1
    ensures DecodeSymbols(Quad(b0, b1, b2) + rest) == [b0, b1, b2] + DecodeSymbols(rest)
  {
    DecodeGroupPrefix(Quad(b0, b1, b2), rest);
    FirstByteOfQuad(b0, b1, b2);
    SecondByteOfQuad(b0, b1, b2);
    ThirdByteOfQuad(b0, b1, b2);
  }

  /** A run of three or more bytes is encoded group by group. */
  lemma EncodeSymbolsGroup(b: seq<Byte>)
    requires |b| >= 3
    ensures EncodeSymbols(b) == Quad(b[0], b[1], b[2]) + EncodeSymbols(b[3..])
  {
  }

  lemma DecodeEncodeGroup(b: seq<Byte>, rest: string)
    requires |b| >= 3 && rest == EncodeSymbols(b[3..])
    ensures DecodeSymbols(EncodeSymbols(b)) == b[..3] + DecodeSymbols(rest)
  {
    EncodeSymbolsGroup(b);
    DecodeQuadPrefix(b[0], b[1], b[2], rest);
    assert b[..3] == [b[0], b[1], b[2]];
  }
  /** Decoding the symbols of `b` gives back `b`. */
  lemma {:induction false} DecodeEncodeSymbols(b: seq<Byte>)
    ensures DecodeSymbols(EncodeSymbols(b)) == b
    decreases |b|
  {
    if |b| == 1 {
      DecodeEncodeOne(b);
    } else if |b| == 2 {
      DecodeEncodeTwo(b);
    } else if |b| >= 3 {
      DecodeEncodeGroup(b, EncodeSymbols(b[3..]));
      DecodeEncodeSymbols(b[3..]);
      assert b == b[..3] + b[3..];
    }
  }

  lemma {:induction false} RemoveWhitespaceKeeps(s: string)
    requires forall i :: 0 <= i < |s| ==> !IsAsciiWhitespace(s[i])
    ensures RemoveAsciiWhitespace(s) == s
    decreases |s|
  {
    if |s| > 0 {
      RemoveWhitespaceKeeps(s[1..]);
      assert s == [s[0]] + s[1..];
    }
  }

  /** Everything `btoa` produces, `atob` reads back. */
  lemma AtobOfBtoa(b: seq<Byte>)
    ensures Atob(Btoa(b)) == Some(b)
  {
    var e := EncodeSymbols(b);
    var v := Btoa(b);
    RemoveWhitespaceKeeps(v);
    assert StripPadding(v) == e;
    DecodeEncodeSymbols(b);
  }

  /** `btoa(atob(v)) === v` holds exactly of the strings `btoa` produces. */
  lemma RoundTripsIffEncoding(v: string)
    ensures RoundTrips(v) <==> exists b :: Btoa(b) == v
  {
    if exists b :: Btoa(b) == v {
      var b :| Btoa(b) == v;
      AtobOfBtoa(b);
    }
  }

  /** A string that passes the check has a length divisible by four and no white space. */
  lemma RoundTripsShape(v: string)
    requires RoundTrips(v)
    ensures |v| % 4 == 0
    ensures forall i :: 0 <= i < |v| ==> IsSymbol(v[i]) || v[i] == '='
  {
  }

  lemma BtoaOfThreeBytes()
    ensures Btoa([65, 66, 67]) == "QUJD"
  {
    var b: seq<Byte> := [65, 66, 67];
    assert Quad(65, 66, 67) == "QUJD" by {
      assert SymbolChar(16) == 'Q' && SymbolChar(20) == 'U' && SymbolChar(9) == 'J' && SymbolChar(3) == 'D';
    }
    assert b[3..] == [];
  }

  /** One full group passes. */
  lemma ExampleFullGroup()
    ensures RoundTrips("QUJD")
  {
    BtoaOfThreeBytes();
    AtobOfBtoa([65, 66, 67]);
  }

  /** A stray `=` after a full group makes `atob` throw. */
  lemma ExampleStrayPadding()
    ensures !RoundTrips("QUJD=")
  {
    RemoveWhitespaceKeeps("QUJD=");
  }

  lemma BtoaOfOneByte()
    ensures Btoa([65]) == "QQ=="
  {
    assert Quad(65, 0, 0)[..2] == "QQ";
  }

  /** One byte passes with its padding. */
  lemma ExampleOneBytePadded()
    ensures RoundTrips("QQ==")
  {
    BtoaOfOneByte();
    AtobOfBtoa([65]);
  }

  /** Without its padding the same byte does not pass. */
  lemma ExampleOneByteUnpadded()
    ensures !RoundTrips("QQ")
  {
    RemoveWhitespaceKeeps("QQ");
    assert Atob("QQ") == Some([65]);
    BtoaOfOneByte();
  }

  /** Leftover bits that are not zero do not pass either. */
  lemma ExampleLeftoverBits()
    ensures !RoundTrips("QR==")
  {
    RemoveWhitespaceKeeps("QR==");
    assert StripPadding("QR==") == "QR";
    assert Atob("QR==") == Some([65]);
    BtoaOfOneByte();
  }
}
