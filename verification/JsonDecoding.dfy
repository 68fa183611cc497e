/** What a JSON string literal means, piece by piece (section 7 of RFC 8259), and that `Decode` finds exactly this. */
module JsonDecoding {
  import opened Prelude
  import opened Utf16
  import opened JsonText
  import opened Json

  /** One character as it is, one letter after a backslash, or `\u` and the four base-16 digits of a code unit. */
  datatype Piece = Plain(c: char) | Short(letter: char) | Hex(unit: int, digits: string)

  const SHORT_ESCAPES: map<char, int> :=
    map['"' := 0x22, '\\' := 0x5C, '/' := 0x2F, 'b' := 0x08, 'f' := 0x0C, 'n' := 0x0A, 'r' := 0x0D, 't' := 0x09]

  const LOWER_DIGITS := "0123456789abcdef"
  const UPPER_DIGITS := "0123456789ABCDEF"

  /** The character is the digit in either letter case. */
  predicate IsDigit16(c: char, digit: int) {
    0 <= digit < 16 && (c == LOWER_DIGITS[digit] || c == UPPER_DIGITS[digit])
  }

  /** The digits of the code unit, the most significant first. */
  predicate IsNumeral16(digits: string, unit: int) {
    && |digits| == 4 && 0 <= unit < 0x1_0000
    && IsDigit16(digits[0], unit / 16 / 16 / 16) && IsDigit16(digits[1], unit / 16 / 16 % 16)
    && IsDigit16(digits[2], unit / 16 % 16) && IsDigit16(digits[3], unit % 16)
  }

  predicate Allowed(p: Piece) {
    match p
    case Plain(c) => c != '"' && c != '\\' && c as int >= 0x20
    case Short(letter) => letter in SHORT_ESCAPES
    case Hex(unit, digits) => IsNumeral16(digits, unit)
  }

  function Written(p: Piece): string {
    match p
    case Plain(c) => [c]
    case Short(letter) => ['\\', letter]
    case Hex(_, digits) => ['\\', 'u'] + digits
  }

  function Meant(p: Piece): seq<int>
    requires Allowed(p)
  {
    match p
    case Plain(c) => CodeUnits(c)
    case Short(letter) => [SHORT_ESCAPES[letter]]
    case Hex(unit, _) => [unit]
  }

  predicate AllAllowed(pieces: seq<Piece>) {
    forall i | 0 <= i < |pieces| :: Allowed(pieces[i])
  }

  function AllWritten(pieces: seq<Piece>): string {
    if pieces == [] then [] else Written(pieces[0]) + AllWritten(pieces[1..])
  }

  function AllMeant(pieces: seq<Piece>): seq<int>
    requires AllAllowed(pieces)
  {
    if pieces == [] then [] else Meant(pieces[0]) + AllMeant(pieces[1..])
  }

  /** The text between the quotes is a row of pieces that stand for these code units. */
  ghost predicate StandsFor(raw: string, units: seq<int>) {
    exists pieces :: IsReading(raw, pieces, units)
  }

  ghost predicate IsReading(raw: string, pieces: seq<Piece>, units: seq<int>) {
    AllAllowed(pieces) && AllWritten(pieces) == raw && AllMeant(pieces) == units
  }

  lemma DigitHasValue(c: char, digit: int)
    requires IsDigit16(c, digit)
    ensures HexValue(c) == Some(digit)
  {
    assert digit < 10 ==> LOWER_DIGITS[digit] as int == '0' as int + digit;
    assert digit >= 10 ==> LOWER_DIGITS[digit] as int == 'a' as int + digit - 10;
    assert digit < 10 ==> UPPER_DIGITS[digit] as int == '0' as int + digit;
    assert digit >= 10 ==> UPPER_DIGITS[digit] as int == 'A' as int + digit - 10;
  }

  lemma ValueHasDigit(c: char)
    requires HexValue(c).Some?
    ensures IsDigit16(c, HexValue(c).value)
  {
    assert forall d | 0 <= d < 10 :: LOWER_DIGITS[d] as int == '0' as int + d;
    assert forall d | 10 <= d < 16 :: LOWER_DIGITS[d] as int == 'a' as int + d - 10;
    assert forall d | 10 <= d < 16 :: UPPER_DIGITS[d] as int == 'A' as int + d - 10;
  }

  lemma LastDigit(n: int, digit: int)
    requires 0 <= digit < 16
    ensures (16 * n + digit) / 16 == n && (16 * n + digit) % 16 == digit
  {
  }

  lemma FourDigits(a: int, b: int, c: int, d: int, unit: int)
    requires 0 <= a < 16 && 0 <= b < 16 && 0 <= c < 16 && 0 <= d < 16
    requires unit == 16 * (16 * (16 * a + b) + c) + d
    ensures 0 <= unit < 0x1_0000 && unit / 16 / 16 / 16 == a && unit / 16 / 16 % 16 == b && unit / 16 % 16 == c
    ensures unit % 16 == d
  {
    LastDigit(16 * (16 * a + b) + c, d);
    LastDigit(16 * a + b, c);
    LastDigit(a, b);
  }

  lemma DigitsMakeUnit(unit: int)
    requires 0 <= unit < 0x1_0000
    ensures unit == 4096 * (unit / 16 / 16 / 16) + 256 * (unit / 16 / 16 % 16) + 16 * (unit / 16 % 16) + unit % 16
  {
  }

  /** Every code unit, its four digits in any letter case. */
  lemma HexEscapeDecodes(unit: int, digits: string, rest: string)
    requires IsNumeral16(digits, unit)
    ensures Decode(['\\', 'u'] + digits + rest) == Prepend([unit], Decode(rest))
  {
    DigitHasValue(digits[0], unit / 16 / 16 / 16);
    DigitHasValue(digits[1], unit / 16 / 16 % 16);
    DigitHasValue(digits[2], unit / 16 % 16);
    DigitHasValue(digits[3], unit % 16);
    DigitsMakeUnit(unit);
    HexDecodes(digits, rest, unit);
  }

  lemma HexDecodes(digits: string, rest: string, unit: int)
    requires |digits| == 4 && forall i | 0 <= i < 4 :: HexValue(digits[i]).Some?
    requires unit == 4096 * HexValue(digits[0]).value + 256 * HexValue(digits[1]).value
                     + 16 * HexValue(digits[2]).value + HexValue(digits[3]).value
    ensures Decode(['\\', 'u'] + digits + rest) == Prepend([unit], Decode(rest))
  {
    var raw := ['\\', 'u'] + digits + rest;
    assert raw[1] == 'u' && raw[6..] == rest;
    assert raw[2] == digits[0] && raw[3] == digits[1] && raw[4] == digits[2] && raw[5] == digits[3];
  }

  lemma ShortEscapeDecodes(letter: char, rest: string)
    ensures SimpleEscape(letter) == if letter in SHORT_ESCAPES then Some(SHORT_ESCAPES[letter]) else None
    ensures letter in SHORT_ESCAPES ==>
      Decode(['\\', letter] + rest) == Prepend([SHORT_ESCAPES[letter]], Decode(rest))
  {
    var raw := ['\\', letter] + rest;
    assert raw[1] == letter && raw[2..] == rest;
  }

  lemma PieceDecodes(p: Piece, rest: string)
    requires Allowed(p)
    ensures Decode(Written(p) + rest) == Prepend(Meant(p), Decode(rest))
  {
    match p
    case Plain(c) => assert ([c] + rest)[1..] == rest;
    case Short(letter) => ShortEscapeDecodes(letter, rest);
    case Hex(unit, digits) => HexEscapeDecodes(unit, digits, rest);
  }

  lemma {:induction false} ReadingDecodes(pieces: seq<Piece>)
    requires AllAllowed(pieces)
    ensures Decode(AllWritten(pieces)) == Some(AllMeant(pieces))
  {
    if pieces != [] {
      ReadingDecodes(pieces[1..]);
      PieceDecodes(pieces[0], AllWritten(pieces[1..]));
    }
  }

  /** The first piece of a text that can be decoded. */
  lemma FirstPiece(raw: string) returns (p: Piece, rest: string)
    requires raw != [] && Decode(raw).Some?
    ensures Allowed(p) && raw == Written(p) + rest && |rest| < |raw| && Decode(rest).Some?
  {
    if raw[0] != '\\' {
      p, rest := Plain(raw[0]), raw[1..];
      assert raw == [raw[0]] + rest;
    } else if SimpleEscape(raw[1]).Some? {
      ShortEscapeDecodes(raw[1], raw[2..]);
      p, rest := Short(raw[1]), raw[2..];
      assert raw == ['\\', raw[1]] + rest;
    } else {
      var a, b, c, d := HexValue(raw[2]).value, HexValue(raw[3]).value, HexValue(raw[4]).value, HexValue(raw[5]).value;
      ValueHasDigit(raw[2]);
      ValueHasDigit(raw[3]);
      ValueHasDigit(raw[4]);
      ValueHasDigit(raw[5]);
      var unit := 16 * (16 * (16 * a + b) + c) + d;
      FourDigits(a, b, c, d, unit);
      p, rest := Hex(unit, raw[2..6]), raw[6..];
      assert raw == ['\\', 'u'] + raw[2..6] + rest;
    }
  }

  lemma {:induction false} DecodedHasReading(raw: string) returns (pieces: seq<Piece>)
    requires Decode(raw).Some?
    ensures AllAllowed(pieces) && AllWritten(pieces) == raw
    decreases |raw|
  {
    pieces := [];
    if raw != [] {
      var p, rest := FirstPiece(raw);
      var more := DecodedHasReading(rest);
      pieces := [p] + more;
      assert pieces[1..] == more;
    }
  }

  /** The decoder accepts exactly the texts that are rows of pieces, and gives exactly the units these stand for. */
  lemma DecodeExactly(raw: string, units: seq<int>)
    ensures Decode(raw) == Some(units) <==> StandsFor(raw, units)
  {
    if Decode(raw) == Some(units) {
      var pieces := DecodedHasReading(raw);
      ReadingDecodes(pieces);
      assert IsReading(raw, pieces, units);
    }
    if pieces :| IsReading(raw, pieces, units) { ReadingDecodes(pieces); }
  }

  // ---------------------------------------------------------------------------------------- what the printers write

  /** The piece by which `JSON.stringify` writes a character. */
  function PieceOf(c: char): Piece {
    var text := Escape(c);
    if |text| == 1 then Plain(c) else if |text| == 2 then Short(text[1]) else Hex(c as int, text[2..])
  }

  lemma ControlIsNumeral(c: char)
    requires |Escape(c)| == 6
    ensures IsNumeral16(Escape(c)[2..], c as int) && Escape(c) == ['\\', 'u'] + Escape(c)[2..]
  {
    var code := c as int;
    assert Escape(c)[2..] == ['0', '0', HexDigit(code / 16), HexDigit(code % 16)];
    assert code / 16 < 2 && code / 16 / 16 == 0;
    assert LOWER_DIGITS[0] == '0' && IsDigit16('0', 0);
  }

  lemma EscapeIsPiece(c: char)
    ensures Allowed(PieceOf(c)) && Written(PieceOf(c)) == Escape(c) && Meant(PieceOf(c)) == CodeUnits(c)
  {
    if |Escape(c)| == 6 { ControlIsNumeral(c); }
  }

  /** The shortest way: only a quote, a backslash and control characters are escaped, with a letter if there is one. */
  lemma EscapeIsShortest(c: char, p: Piece)
    requires Allowed(p) && Meant(p) == CodeUnits(c)
    ensures |Escape(c)| <= |Written(p)|
    ensures |Escape(c)| == 1 <==> c != '"' && c != '\\' && c as int >= 0x20
  {
  }

  /** Decoding what was escaped gives the code units of the text back. */
  lemma {:induction false} EscapedDecodes(s: string)
    ensures Decode(EscapeAll(s)) == Some(Units(s))
  {
    if s != [] {
      EscapedDecodes(s[1..]);
      EscapeIsPiece(s[0]);
      PieceDecodes(PieceOf(s[0]), EscapeAll(s[1..]));
    }
  }
}
