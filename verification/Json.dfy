/**
 The two key-sorting JSON printers, `canonical` for signed workforce statements and `canonicalJson` for ledger and
 payment fingerprints, and what a value means to each.
 */
module Json {
  import opened Order

  /** A JavaScript value as the printers meet it.  Number carries the text of `Number.prototype.toString`. */
  datatype Value =
    | Undefined
    | Null
    | Bool(flag: bool)
    | Number(lexeme: string)
    | Str(text: string)
    | Arr(items: seq<Value>)
    | Obj(members: seq<Keyed<Value>>)

  predicate IsNumberLexeme(s: string) {
    |s| > 0 && ('0' <= s[0] <= '9' || s[0] == '-') &&
    forall c | c in s :: '0' <= c <= '9' || c == '.' || c == '+' || c == '-' || c == 'e'
  }

  /** Object keys are distinct and finite numbers print as numbers; every JavaScript object satisfies this. */
  ghost predicate Valid(v: Value) {
    match v
    case Number(lexeme) => IsNumberLexeme(lexeme)
    case Arr(items) => forall i | 0 <= i < |items| :: Valid(items[i])
    case Obj(members) => DistinctKeys(members) && forall i | 0 <= i < |members| :: Valid(members[i].item)
    case _ => true
  }

  /** A value that JSON can represent: `undefined` occurs nowhere. */
  ghost predicate IsJson(v: Value) {
    match v
    case Undefined => false
    case Arr(items) => forall i | 0 <= i < |items| :: IsJson(items[i])
    case Obj(members) => forall i | 0 <= i < |members| :: IsJson(members[i].item)
    case _ => true
  }

  // ------------------------------------------------------------------------------------------ string literals

  function HexDigit(n: nat): char
    requires n < 16
  {
    "0123456789abcdef"[n]
  }

  /** How `JSON.stringify` writes one character inside a string literal. */
  function Escape(c: char): string {
    if c == '"' then ['\\', '"']
    else if c == '\\' then ['\\', '\\']
    else if c as int == 8 then ['\\', 'b']
    else if c as int == 9 then ['\\', 't']
    else if c as int == 10 then ['\\', 'n']
    else if c as int == 12 then ['\\', 'f']
    else if c as int == 13 then ['\\', 'r']
    else if c as int < 32 then ['\\', 'u', '0', '0', HexDigit(c as int / 16), HexDigit(c as int % 16)]
    else [c]
  }

  function EscapeAll(s: string): string {
    if s == [] then [] else Escape(s[0]) + EscapeAll(s[1..])
  }

  function Quote(s: string): string {
    ['"'] + EscapeAll(s) + ['"']
  }

  // ----------------------------------------------------------------------------------------------- the printers

  /** `canonical` (Workforce) and `canonicalJson` (Ledger) differ only in what `undefined` prints as. */
  datatype Printer = Workforce | Ledger

  function Join(parts: seq<string>): string {
    if |parts| == 0 then ""
    else if |parts| == 1 then parts[0]
    else parts[0] + "," + Join(parts[1..])
  }

  /** `"key":text` for each entry. */
  function Entries(members: seq<Keyed<string>>): seq<string> {
    seq(|members|, i requires 0 <= i < |members| => Quote(members[i].key) + ":" + members[i].item)
  }

  function Print(p: Printer, v: Value): string
    decreases v, 0
  {
    match v
    case Undefined => if p.Workforce? then "null" else "undefined"
    case Null => "null"
    case Bool(flag) => if flag then "true" else "false"
    case Number(lexeme) => lexeme
    case Str(text) => Quote(text)
    case Arr(items) =>
      "[" + Join(seq(|items|, i requires 0 <= i < |items| => PrintItem(p, items[i]))) + "]"
    case Obj(members) =>
      var printed := seq(|members|, i requires 0 <= i < |members| =>
        Keyed(members[i].key, Print(p, members[i].item)));
      "{" + Join(Entries(Sort(printed))) + "}"
  }

  /** `Array.prototype.join` prints an `undefined` element as nothing; `canonical` never returns `undefined`. */
  function PrintItem(p: Printer, v: Value): string
    decreases v, 1
  {
    if p.Ledger? && v.Undefined? then "" else Print(p, v)
  }

  // --------------------------------------------------------------------- what a value means, member order aside

  datatype Meaning =
    | Absent
    | Nothing
    | Flag(flag: bool)
    | Amount(lexeme: string)
    | Text(text: string)
    | Sequence(items: seq<Meaning>)
    | Record(members: map<string, Meaning>)

  /** The map of an object; the order of its members is gone. */
  ghost function MapOf(members: seq<Keyed<Meaning>>): map<string, Meaning> {
    if members == [] then map[] else map[members[0].key := members[0].item] + MapOf(members[1..])
  }

  /**
   For JSON values this is the abstract JSON value and does not depend on the printer (see MeaningOfJson).
   Outside JSON, `canonical` reads `undefined` as null, and `canonicalJson` reads `[undefined]` as `[]`.
   */
  ghost function MeaningOf(p: Printer, v: Value): Meaning {
    match v
    case Undefined => if p.Workforce? then Nothing else Absent
    case Null => Nothing
    case Bool(flag) => Flag(flag)
    case Number(lexeme) => Amount(lexeme)
    case Str(text) => Text(text)
    case Arr(items) =>
      if p.Ledger? && items == [Undefined] then Sequence([])
      else Sequence(seq(|items|, i requires 0 <= i < |items| => MeaningOf(p, items[i])))
    case Obj(members) =>
      Record(MapOf(seq(|members|, i requires 0 <= i < |members| =>
        Keyed(members[i].key, MeaningOf(p, members[i].item)))))
  }

  /** Over JSON values both printers are about the same meaning. */
  lemma {:induction false} MeaningOfJson(v: Value)
    requires IsJson(v)
    ensures MeaningOf(Workforce, v) == MeaningOf(Ledger, v)
  {
    match v
    case Arr(items) =>
      forall i | 0 <= i < |items| { MeaningOfJson(items[i]); }
      assert items == [Undefined] ==> !IsJson(items[0]);
      assert seq(|items|, i requires 0 <= i < |items| => MeaningOf(Workforce, items[i]))
          == seq(|items|, i requires 0 <= i < |items| => MeaningOf(Ledger, items[i]));
    case Obj(members) =>
      forall i | 0 <= i < |members| { MeaningOfJson(members[i].item); }
      assert seq(|members|, i requires 0 <= i < |members| => Keyed(members[i].key, MeaningOf(Workforce, members[i].item)))
          == seq(|members|, i requires 0 <= i < |members| => Keyed(members[i].key, MeaningOf(Ledger, members[i].item)));
    case _ =>
  }

  // ---------------------------------------------------- forms: values with sorted members, one for each printed text

  datatype Form =
    | Bare(text: string)
    | Quoted(text: string)
    | FormList(items: seq<Form>)
    | FormRecord(members: seq<Keyed<Form>>)

  predicate Structural(c: char) {
    c == '"' || c == ',' || c == ':' || c == '[' || c == ']' || c == '{' || c == '}'
  }

  /** A list holding one empty token would print like the empty list; forms do not contain it. */
  ghost predicate Readable(f: Form) {
    match f
    case Bare(text) => forall c | c in text :: !Structural(c)
    case Quoted(_) => true
    case FormList(items) => items != [Bare("")] && forall i | 0 <= i < |items| :: Readable(items[i])
    case FormRecord(members) => forall i | 0 <= i < |members| :: Readable(members[i].item)
  }

  ghost function Render(f: Form): string
    decreases f, 0
  {
    match f
    case Bare(text) => text
    case Quoted(text) => Quote(text)
    case FormList(items) => "[" + RenderItems(items) + "]"
    case FormRecord(members) => "{" + RenderMembers(members) + "}"
  }

  ghost function RenderItems(items: seq<Form>): string
    decreases items, 1
  {
    if |items| == 0 then ""
    else if |items| == 1 then Render(items[0])
    else Render(items[0]) + "," + RenderItems(items[1..])
  }

  ghost function RenderMembers(members: seq<Keyed<Form>>): string
    decreases members, 1
  {
    if |members| == 0 then ""
    else
      var first := Quote(members[0].key) + ":" + Render(members[0].item);
      if |members| == 1 then first else first + "," + RenderMembers(members[1..])
  }

  ghost function FormOf(p: Printer, v: Value): Form
    decreases v, 0
  {
    match v
    case Undefined => if p.Workforce? then Bare("null") else Bare("undefined")
    case Null => Bare("null")
    case Bool(flag) => if flag then Bare("true") else Bare("false")
    case Number(lexeme) => Bare(lexeme)
    case Str(text) => Quoted(text)
    case Arr(items) =>
      if p.Ledger? && items == [Undefined] then FormList([])
      else FormList(seq(|items|, i requires 0 <= i < |items| => ItemForm(p, items[i])))
    case Obj(members) =>
      FormRecord(Sort(seq(|members|, i requires 0 <= i < |members| =>
        Keyed(members[i].key, FormOf(p, members[i].item)))))
  }

  ghost function ItemForm(p: Printer, v: Value): Form
    decreases v, 1
  {
    if p.Ledger? && v.Undefined? then Bare("") else FormOf(p, v)
  }
}
