/** The string operations of JavaScript that the services use on their inputs. */
module JsText {
  import opened Prelude
  import opened Utf16

  /** White space as `trim` and the regular expression class `\s` have it, which is wider than JSON's. */
  predicate IsSpace(c: char) {
    var code := c as int;
    9 <= code <= 13 || code == 0x20 || code == 0xA0 || code == 0x1680 || 0x2000 <= code <= 0x200A
    || code == 0x2028 || code == 0x2029 || code == 0x202F || code == 0x205F || code == 0x3000 || code == 0xFEFF
  }

  function TrimStart(s: string): string {
    if s != [] && IsSpace(s[0]) then TrimStart(s[1..]) else s
  }

  function TrimEnd(s: string): string {
    if s != [] && IsSpace(s[|s| - 1]) then TrimEnd(s[..|s| - 1]) else s
  }

  function Trim(s: string): string {
    TrimEnd(TrimStart(s))
  }

  predicate AllSpace(s: string) {
    forall c | c in s :: IsSpace(c)
  }

  /** The text without the white space around it. */
  ghost predicate IsTrimmed(s: string, r: string) {
    && (r == "" || (!IsSpace(r[0]) && !IsSpace(r[|r| - 1])))
    && exists a, b :: AllSpace(a) && AllSpace(b) && s == a + r + b
  }

  lemma {:induction false} TrimStartOf(a: string, s: string)
    requires AllSpace(a) && (s == "" || !IsSpace(s[0]))
    ensures TrimStart(a + s) == s
  {
    if a == "" {
      assert a + s == s;
    } else {
      assert IsSpace(a[0]) && forall c | c in a[1..] :: c in a;
      assert (a + s)[1..] == a[1..] + s;
      TrimStartOf(a[1..], s);
    }
  }

  lemma {:induction false} TrimEndOf(s: string, b: string)
    requires AllSpace(b) && (s == "" || !IsSpace(s[|s| - 1]))
    ensures TrimEnd(s + b) == s
  {
    if b == "" {
      assert s + b == s;
    } else {
      var front := b[..|b| - 1];
      assert IsSpace(b[|b| - 1]) && forall c | c in front :: c in b;
      assert (s + b)[..|s + b| - 1] == s + front;
      TrimEndOf(s, front);
    }
  }

  lemma {:induction false} TrimStartLeaves(s: string) returns (a: string)
    ensures AllSpace(a) && s == a + TrimStart(s)
    ensures TrimStart(s) != "" ==> !IsSpace(TrimStart(s)[0])
  {
    a := "";
    if s != "" && IsSpace(s[0]) {
      var more := TrimStartLeaves(s[1..]);
      a := [s[0]] + more;
    }
  }

  lemma {:induction false} TrimEndLeaves(s: string) returns (b: string)
    ensures AllSpace(b) && s == TrimEnd(s) + b
    ensures TrimEnd(s) != "" ==> !IsSpace(TrimEnd(s)[|TrimEnd(s)| - 1])
  {
    b := "";
    if s != "" && IsSpace(s[|s| - 1]) {
      var more := TrimEndLeaves(s[..|s| - 1]);
      b := more + [s[|s| - 1]];
      assert s == s[..|s| - 1] + [s[|s| - 1]];
    }
  }

  lemma AllSpaceIsDropped(s: string)
    requires AllSpace(s)
    ensures Trim(s) == ""
  {
    assert s + "" == s;
    TrimStartOf(s, "");
  }

  lemma TrimOfTrimmed(a: string, r: string, b: string)
    requires AllSpace(a) && AllSpace(b) && (r == "" || (!IsSpace(r[0]) && !IsSpace(r[|r| - 1])))
    ensures Trim(a + r + b) == r
  {
    if r == "" {
      AllSpaceIsDropped(a + r + b);
    } else {
      assert a + r + b == a + (r + b) && (r + b)[0] == r[0];
      TrimStartOf(a, r + b);
      TrimEndOf(r, b);
    }
  }

  /** `trim` takes exactly the white space at both ends away. */
  lemma TrimExactly(s: string, r: string)
    ensures Trim(s) == r <==> IsTrimmed(s, r)
  {
    var a := TrimStartLeaves(s);
    var b := TrimEndLeaves(TrimStart(s));
    assert s == a + Trim(s) + b;
    assert Trim(s) != "" ==> Trim(s)[0] == TrimStart(s)[0];
    if IsTrimmed(s, r) {
      var x, y :| AllSpace(x) && AllSpace(y) && s == x + r + y;
      TrimOfTrimmed(x, r, y);
    }
  }

  /** `String.prototype.length`: UTF-16 code units. */
  function Length(s: string): nat {
    if s == [] then 0 else (if s[0] as int < 0x1_0000 then 1 else 2) + Length(s[1..])
  }

  lemma {:induction false} LengthCountsUnits(s: string)
    ensures Length(s) == |Units(s)|
  {
    if s != [] { LengthCountsUnits(s[1..]); }
  }

  /**
   The upper case of a character as far as it lies in A to Z: dotless i, long s, sharp s and the Latin ligatures have
   one.  Any other character is left as it is, which the patterns below refuse just as they refuse its upper case.
   */
  function UpperOf(c: char): string {
    var code := c as int;
    if 'a' <= c <= 'z' then [c - 'a' + 'A']
    else if code == 0x131 then "I"
    else if code == 0x17F then "S"
    else if code == 0xDF then "SS"
    else if code == 0xFB00 then "FF"
    else if code == 0xFB01 then "FI"
    else if code == 0xFB02 then "FL"
    else if code == 0xFB03 then "FFI"
    else if code == 0xFB04 then "FFL"
    else if code == 0xFB05 || code == 0xFB06 then "ST"
    else [c]
  }

  function Concat(parts: seq<string>): string {
    if parts == [] then [] else parts[0] + Concat(parts[1..])
  }

  function ToUpper(s: string): string {
    Concat(seq(|s|, i requires 0 <= i < |s| => UpperOf(s[i])))
  }

  lemma {:induction false} UpperStays(s: string)
    requires forall c | c in s :: UpperOf(c) == [c]
    ensures ToUpper(s) == s
  {
    if s != [] {
      var parts := seq(|s|, i requires 0 <= i < |s| => UpperOf(s[i]));
      assert s[0] in s && forall c | c in s[1..] :: c in s;
      UpperStays(s[1..]);
      assert parts[1..] == seq(|s[1..]|, i requires 0 <= i < |s[1..]| => UpperOf(s[1..][i]));
      assert s == [s[0]] + s[1..];
    }
  }

  predicate IsLetter(c: char) {
    'a' <= c <= 'z' || 'A' <= c <= 'Z'
  }

  /** The same letter, as a capital. */
  predicate IsCapitalOf(capital: char, c: char) {
    if 'a' <= c <= 'z' then capital as int == c as int - 32 else capital == c
  }

  lemma {:induction false} AsciiUpper(s: string)
    requires forall c | c in s :: c as int < 128
    ensures |ToUpper(s)| == |s| && forall i | 0 <= i < |s| :: IsCapitalOf(ToUpper(s)[i], s[i])
  {
    if s != [] {
      var parts := seq(|s|, i requires 0 <= i < |s| => UpperOf(s[i]));
      assert s[0] in s && forall c | c in s[1..] :: c in s;
      AsciiUpper(s[1..]);
      assert parts[1..] == seq(|s[1..]|, i requires 0 <= i < |s[1..]| => UpperOf(s[1..][i]));
      assert UpperOf(s[0]) == [UpperOf(s[0])[0]];
      assert ToUpper(s) == UpperOf(s[0]) + ToUpper(s[1..]);
      forall i | 0 <= i < |s| ensures IsCapitalOf(ToUpper(s)[i], s[i]) {
        if i > 0 { assert s[i] == s[1..][i - 1]; }
      }
    }
  }

  /** Three ASCII letters, in any case and with white space around them, are accepted as their capitals. */
  lemma CurrencyExactly(text: string, currency: string)
    requires forall c | c in Trim(text) :: c as int < 128
    ensures NormalizeCurrency(text) == Success(currency) <==>
      && |Trim(text)| == |currency| == 3
      && forall i | 0 <= i < 3 :: IsLetter(Trim(text)[i]) && IsCapitalOf(currency[i], Trim(text)[i])
  {
    var letters := Trim(text);
    AsciiUpper(letters);
    if |letters| == 3 {
      forall i | 0 <= i < 3 ensures IsUpperLetter(ToUpper(letters)[i]) <==> IsLetter(letters[i]) {
        assert IsCapitalOf(ToUpper(letters)[i], letters[i]);
      }
      assert forall c | c in ToUpper(letters) :: c in [ToUpper(letters)[0], ToUpper(letters)[1], ToUpper(letters)[2]];
      assert (forall c | c in ToUpper(letters) :: IsUpperLetter(c)) <==> forall i | 0 <= i < 3 :: IsLetter(letters[i]);
      if |currency| == 3 && forall i | 0 <= i < 3 :: IsCapitalOf(currency[i], letters[i]) {
        assert currency == ToUpper(letters) by {
          forall i | 0 <= i < 3 ensures currency[i] == ToUpper(letters)[i] {
            assert IsCapitalOf(ToUpper(letters)[i], letters[i]);
          }
        }
      }
    }
  }

  function ToLower(s: string): string {
    seq(|s|, i requires 0 <= i < |s| => if 'A' <= s[i] <= 'Z' then s[i] - 'A' + 'a' else s[i])
  }

  predicate IsUpperLetter(c: char) {
    'A' <= c <= 'Z'
  }

  function NormalizeCurrency(currency: string): Result<string, Error> {
    var normalized := ToUpper(Trim(currency));
    if |normalized| == 3 && forall c | c in normalized :: IsUpperLetter(c) then Success(normalized)
    else Failure(BadRequest)
  }

  function NormalizeAccountingUnit(unit: string): Result<string, Error> {
    var normalized := ToUpper(Trim(unit));
    if 2 <= |normalized| <= 64 && IsUpperLetter(normalized[0])
       && forall c | c in normalized[1..] :: IsUpperLetter(c) || '0' <= c <= '9' || c == '_' || c == ':' || c == '-'
    then Success(normalized)
    else Failure(BadRequest)
  }

  predicate IsHex(c: char) {
    '0' <= c <= '9' || 'a' <= c <= 'f' || 'A' <= c <= 'F'
  }

  predicate IsUuid(s: string) {
    |s| == 36 && forall i | 0 <= i < 36 :: if i == 8 || i == 13 || i == 18 || i == 23 then s[i] == '-' else IsHex(s[i])
  }

  function OptionalText(value: Option<string>): Result<Option<string>, Error> {
    if value.None? || Trim(value.value) == "" then Success(None)
    else if Length(Trim(value.value)) > 255 then Failure(BadRequest)
    else Success(Some(Trim(value.value)))
  }
}
