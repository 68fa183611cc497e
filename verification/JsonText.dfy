/** JSON texts by the grammar of RFC 8259: the written form, keeping white space and undecoded strings. */
module JsonText {

  import opened Prelude
  import opened Utf16

  /** A value with the white space around it. */
  datatype Element = Element(before: string, node: Node, after: string)

  /** `before "name" between : element`; the name is kept as written between its quotes. */
  datatype Member = Member(before: string, name: string, between: string, element: Element)

  datatype Node =
    | Token(text: string)
    | Literal(raw: string)
    | List(blank: string, items: seq<Element>)
    | Object(blank: string, members: seq<Member>)

  predicate IsJsonSpace(c: char) {
    c == ' ' || c == '\t' || c == '\n' || c == '\r'
  }

  predicate Blank(s: string) {
    forall c | c in s :: IsJsonSpace(c)
  }

  /** Numbers and the words true, false and null are written with these characters. */
  predicate IsTokenChar(c: char) {
    'a' <= c <= 'z' || 'A' <= c <= 'Z' || '0' <= c <= '9' || c == '-' || c == '+' || c == '.'
  }

  function HexValue(c: char): Option<int> {
    if '0' <= c <= '9' then Some(c as int - '0' as int)
    else if 'a' <= c <= 'f' then Some(c as int - 'a' as int + 10)
    else if 'A' <= c <= 'F' then Some(c as int - 'A' as int + 10)
    else None
  }

  function SimpleEscape(c: char): Option<int> {
    if c == '"' || c == '\\' || c == '/' then Some(c as int)
    else if c == 'b' then Some(8)
    else if c == 'f' then Some(12)
    else if c == 'n' then Some(10)
    else if c == 'r' then Some(13)
    else if c == 't' then Some(9)
    else None
  }

  function Prepend(units: seq<int>, tail: Option<seq<int>>): Option<seq<int>> {
    if tail.Some? then Some(units + tail.value) else None
  }

  /** The code units `JSON.parse` makes of the text between two quotes; None when that text is not allowed there. */
  function Decode(raw: string): Option<seq<int>> {
    if raw == [] then Some([])
    else if raw[0] == '\\' then
      if |raw| < 2 then None
      else if SimpleEscape(raw[1]).Some? then Prepend([SimpleEscape(raw[1]).value], Decode(raw[2..]))
      else if raw[1] == 'u' && |raw| >= 6 && HexValue(raw[2]).Some? && HexValue(raw[3]).Some?
              && HexValue(raw[4]).Some? && HexValue(raw[5]).Some? then
        var unit := 4096 * HexValue(raw[2]).value + 256 * HexValue(raw[3]).value
                    + 16 * HexValue(raw[4]).value + HexValue(raw[5]).value;
        Prepend([unit], Decode(raw[6..]))
      else None
    else if raw[0] == '"' || raw[0] as int < 32 then None
    else Prepend(CodeUnits(raw[0]), Decode(raw[1..]))
  }

  // -------------------------------------------------------------------------------------------- the written text

  function Text(e: Element): string
    decreases e, 0
  {
    e.before + NodeText(e.node) + e.after
  }

  function NodeText(n: Node): string
    decreases n, 0
  {
    match n
    case Token(text) => text
    case Literal(raw) => "\"" + raw + "\""
    case List(blank, items) => "[" + (blank + (ItemsText(items) + "]"))
    case Object(blank, members) => "{" + (blank + (MembersText(members) + "}"))
  }

  function ItemsText(items: seq<Element>): string
    decreases items, 1
  {
    if |items| == 0 then ""
    else if |items| == 1 then Text(items[0])
    else Text(items[0]) + "," + ItemsText(items[1..])
  }

  function MemberText(m: Member): string
    decreases m, 1
  {
    m.before + ("\"" + (m.name + ("\"" + (m.between + (":" + Text(m.element))))))
  }

  function MembersText(members: seq<Member>): string
    decreases members, 2
  {
    if |members| == 0 then ""
    else if |members| == 1 then MemberText(members[0])
    else MemberText(members[0]) + "," + MembersText(members[1..])
  }

  ghost predicate WellFormed(e: Element) {
    Blank(e.before) && Blank(e.after) && WellFormedNode(e.node)
  }

  ghost predicate WellFormedNode(n: Node) {
    match n
    case Token(text) => |text| > 0 && forall c | c in text :: IsTokenChar(c)
    case Literal(raw) => Decode(raw).Some?
    case List(blank, items) => Blank(blank) && forall i | 0 <= i < |items| :: WellFormed(items[i])
    case Object(blank, members) => Blank(blank) && forall i | 0 <= i < |members| :: WellFormedMember(members[i])
  }

  ghost predicate WellFormedMember(m: Member) {
    Blank(m.before) && Blank(m.between) && Decode(m.name).Some? && WellFormed(m.element)
  }

  // ------------------------------------------------------------------- the rule of RFC 7515 section 4, on the tree

  ghost predicate SameName(a: Member, b: Member) {
    Decode(a.name) == Decode(b.name)
  }

  /** Some object of the document has two members whose decoded names are equal. */
  ghost predicate HasDuplicate(n: Node) {
    match n
    case List(_, items) => exists i | 0 <= i < |items| :: HasDuplicate(items[i].node)
    case Object(_, members) =>
      || (exists i, j | 0 <= i < j < |members| :: SameName(members[i], members[j]))
      || (exists i | 0 <= i < |members| :: HasDuplicate(members[i].element.node))
    case _ => false
  }
}
