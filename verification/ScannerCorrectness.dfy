/** The scanner rejects a well-formed text exactly when the tree it denotes repeats a name in some object. */
module ScannerCorrectness {
  import opened JsonText
  import opened JsText
  import opened Prelude
  import opened KeyScanner

  ghost predicate Outside(st: State) {
    !st.inString && !st.escape
  }

  // ------------------------------------------------------------------------------------------- string literals

  /** The text keeps a string open: no unescaped quote, no escape left pending. */
  ghost predicate StaysInside(raw: string, escape: bool) {
    if raw == [] then !escape
    else if escape then StaysInside(raw[1..], false)
    else if raw[0] == '\\' then StaysInside(raw[1..], true)
    else raw[0] != '"' && StaysInside(raw[1..], false)
  }

  lemma {:induction false} DecodableStaysInside(raw: string)
    requires Decode(raw).Some?
    ensures StaysInside(raw, false)
  {
    if raw == [] {
    } else if raw[0] != '\\' {
      DecodableStaysInside(raw[1..]);
    } else {
      assert raw[1..][1..] == raw[2..];
      if SimpleEscape(raw[1]).Some? {
        DecodableStaysInside(raw[2..]);
      } else {
        DecodableStaysInside(raw[6..]);
        PlainPrefixStaysInside(raw[2..6], raw[6..]);
        assert raw[2..] == raw[2..6] + raw[6..];
      }
      assert StaysInside(raw[1..], true);
    }
  }

  lemma {:induction false} PlainPrefixStaysInside(p: string, raw: string)
    requires forall c | c in p :: c != '"' && c != '\\'
    requires StaysInside(raw, false)
    ensures StaysInside(p + raw, false)
  {
    if p == [] {
      assert p + raw == raw;
    } else {
      assert p[0] in p && forall c | c in p[1..] :: c in p;
      PlainPrefixStaysInside(p[1..], raw);
      assert (p + raw)[1..] == p[1..] + raw;
    }
  }

  /** The look-ahead finds the end of the literal, and the scanner leaves the string there. */
  lemma {:induction false} PassString(raw: string, escape: bool, rest: string, st: State)
    requires StaysInside(raw, escape) && st.inString && st.escape == escape
    ensures BodyLength(raw + ("\"" + rest), escape) == |raw|
    ensures Scan(raw + ("\"" + rest), st) == Scan(rest, st.(inString := false, escape := false))
  {
    var s := raw + ("\"" + rest);
    if raw == [] {
      assert s == "\"" + rest;
      assert s[1..] == rest;
    } else {
      assert s[0] == raw[0] && s[1..] == raw[1..] + ("\"" + rest);
      var next := if escape then false else raw[0] == '\\';
      PassString(raw[1..], next, rest, st.(escape := next));
    }
  }

  lemma {:induction false} BlankBeforeColon(blank: string, rest: string)
    requires Blank(blank)
    ensures ColonNext(blank + rest) == ColonNext(rest)
  {
    if blank == [] {
      assert blank + rest == rest;
    } else {
      assert blank[0] in blank;
      BlankBeforeColon(blank[1..], rest);
      assert (blank + rest)[1..] == blank[1..] + rest;
    }
  }

  /** A literal not followed by a colon only opens and closes a string. */
  lemma PassLiteral(raw: string, rest: string, st: State)
    requires Decode(raw).Some? && Outside(st) && !ColonNext(rest)
    ensures Scan("\"" + (raw + ("\"" + rest)), st) == Scan(rest, st)
  {
    var s := "\"" + (raw + ("\"" + rest));
    DecodableStaysInside(raw);
    PassString(raw, false, rest, st.(inString := true));
    assert s[1..] == raw + ("\"" + rest);
    assert s[|raw| + 2..] == rest;
    assert st.(inString := true).(inString := false, escape := false) == st;
    assert Step(s, st) == Continue(st.(inString := true));
  }

  /** A literal followed by a colon inside an object is rejected when its name is known, and filed otherwise. */
  lemma PassName(raw: string, rest: string, st: State)
    requires Decode(raw).Some? && Outside(st) && ColonNext(rest) && st.depth in st.seen
    ensures Scan("\"" + (raw + ("\"" + rest)), st) ==
      if Decode(raw).value in st.seen[st.depth] then DuplicateKey
      else Scan(rest, st.(seen := st.seen[st.depth := st.seen[st.depth] + {Decode(raw).value}]))
  {
    var s := "\"" + (raw + ("\"" + rest));
    var filed := st.(seen := st.seen[st.depth := st.seen[st.depth] + {Decode(raw).value}]);
    DecodableStaysInside(raw);
    PassString(raw, false, rest, filed.(inString := true));
    assert s[1..] == raw + ("\"" + rest);
    assert s[1..|raw| + 1] == raw;
    assert s[|raw| + 2..] == rest;
    assert filed.(inString := true).(inString := false, escape := false) == filed;
  }

  // --------------------------------------------------------------------------------- text without marks of interest

  ghost predicate Unmarked(p: string) {
    forall c | c in p :: c != '"' && c != '{' && c != '}'
  }

  lemma {:induction false} PassUnmarked(p: string, rest: string, st: State)
    requires Unmarked(p) && Outside(st)
    ensures Scan(p + rest, st) == Scan(rest, st)
  {
    if p == [] {
      assert p + rest == rest;
    } else {
      assert p[0] in p && forall c | c in p[1..] :: c in p;
      assert (p + rest)[1..] == p[1..] + rest;
      PassUnmarked(p[1..], rest, st);
    }
  }

  // ---------------------------------------------------------------------------------------------- the document

  /** After a value the scanner is where it was, except perhaps for what it remembers of deeper levels. */
  ghost predicate Back(st: State, out: State) {
    Outside(out) && out.depth == st.depth &&
    forall d | d <= st.depth :: (d in st.seen <==> d in out.seen) && (d in st.seen ==> out.seen[d] == st.seen[d])
  }

  ghost predicate ElementOutcome(e: Element, rest: string, st: State, out: State) {
    if HasDuplicate(e.node) then Scan(Text(e) + rest, st) == DuplicateKey
    else Back(st, out) && Scan(Text(e) + rest, st) == Scan(rest, out)
  }

  ghost predicate NodeOutcome(n: Node, rest: string, st: State, out: State) {
    if HasDuplicate(n) then Scan(NodeText(n) + rest, st) == DuplicateKey
    else Back(st, out) && Scan(NodeText(n) + rest, st) == Scan(rest, out)
  }

  lemma {:induction false} ScanElement(e: Element, rest: string, st: State) returns (out: State)
    requires WellFormed(e) && Outside(st) && !ColonNext(rest)
    ensures ElementOutcome(e, rest, st, out)
    decreases e, 0
  {
    var tail := e.after + rest;
    assert Text(e) + rest == e.before + (NodeText(e.node) + tail);
    PassUnmarked(e.before, NodeText(e.node) + tail, st);
    BlankBeforeColon(e.after, rest);
    out := ScanNode(e.node, tail, st);
    if !HasDuplicate(e.node) { PassUnmarked(e.after, rest, out); }
  }

  lemma {:induction false} ScanNode(n: Node, rest: string, st: State) returns (out: State)
    requires WellFormedNode(n) && Outside(st) && !ColonNext(rest)
    ensures NodeOutcome(n, rest, st, out)
    decreases n, 0
  {
    match n
    case Token(text) =>
      PassUnmarked(text, rest, st);
      out := st;
    case Literal(raw) =>
      assert NodeText(n) + rest == "\"" + (raw + ("\"" + rest));
      PassLiteral(raw, rest, st);
      out := st;
    case List(blank, items) => out := ScanList(blank, items, rest, st);
    case Object(blank, members) => out := ScanObject(blank, members, rest, st);
  }

  lemma {:induction false} ScanList(blank: string, items: seq<Element>, rest: string, st: State) returns (out: State)
    requires WellFormedNode(List(blank, items)) && Outside(st)
    ensures NodeOutcome(List(blank, items), rest, st, out)
    decreases items, 3
  {
    var tail := "]" + rest;
    assert NodeText(List(blank, items)) + rest == ("[" + blank) + (ItemsText(items) + tail);
    PassUnmarked("[" + blank, ItemsText(items) + tail, st);
    out := ScanItems(items, tail, st);
    if !HasDuplicate(List(blank, items)) { PassUnmarked("]", rest, out); }
  }

  lemma {:induction false} ScanItems(items: seq<Element>, rest: string, st: State) returns (out: State)
    requires forall i | 0 <= i < |items| :: WellFormed(items[i])
    requires Outside(st) && !ColonNext(rest)
    ensures if exists i | 0 <= i < |items| :: HasDuplicate(items[i].node)
            then Scan(ItemsText(items) + rest, st) == DuplicateKey
            else Back(st, out) && Scan(ItemsText(items) + rest, st) == Scan(rest, out)
    decreases items, 1
  {
    if items == [] {
      assert ItemsText(items) + rest == rest;
      return st;
    }
    var others := items[1..];
    assert forall i | 1 <= i < |items| :: items[i] == others[i - 1];
    var tail := if |items| == 1 then rest else "," + (ItemsText(others) + rest);
    assert ItemsText(items) + rest == Text(items[0]) + tail;
    out := ScanElement(items[0], tail, st);
    if |items| > 1 && !HasDuplicate(items[0].node) {
      PassUnmarked(",", ItemsText(others) + rest, out);
      out := ScanItems(others, rest, out);
    }
  }

  // -------------------------------------------------------------------------------------------------- objects

  /** What the scanner has to find in the members still ahead, given the names already filed for this object. */
  ghost predicate Clash(members: seq<Member>, known: set<Name>) {
    || (exists i | 0 <= i < |members| :: Decode(members[i].name).Some? && Decode(members[i].name).value in known)
    || (exists i, j | 0 <= i < j < |members| :: SameName(members[i], members[j]))
    || (exists i | 0 <= i < |members| :: HasDuplicate(members[i].element.node))
  }

  lemma ClashAhead(members: seq<Member>, known: set<Name>, key: Name)
    requires members != [] && Decode(members[0].name) == Some(key) && Clash(members[1..], known + {key})
    ensures Clash(members, known)
  {
    var rest := members[1..];
    assert forall i | 0 <= i < |rest| :: rest[i] == members[i + 1];
    if i :| 0 <= i < |rest| && Decode(rest[i].name).Some? && Decode(rest[i].name).value in known + {key} {
      assert Decode(members[i + 1].name).value == key ==> SameName(members[0], members[i + 1]);
    } else if i, j :| 0 <= i < j < |rest| && SameName(rest[i], rest[j]) {
      assert SameName(members[i + 1], members[j + 1]);
    }
  }

  lemma ClashSplit(members: seq<Member>, known: set<Name>)
    requires members != [] && forall i | 0 <= i < |members| :: Decode(members[i].name).Some?
    ensures var key := Decode(members[0].name).value;
      Clash(members, known) <==>
        key in known || HasDuplicate(members[0].element.node) || Clash(members[1..], known + {key})
  {
    var key, rest := Decode(members[0].name).value, members[1..];
    assert forall i | 1 <= i < |members| :: members[i] == rest[i - 1];
    if Clash(rest, known + {key}) { ClashAhead(members, known, key); }
    if i, j :| 0 <= i < j < |members| && SameName(members[i], members[j]) {
      if i == 0 {
        assert Decode(rest[j - 1].name).value == key;
      } else {
        assert SameName(rest[i - 1], rest[j - 1]);
      }
    }
  }

  /** As Back, but the names of the current object may have grown. */
  ghost predicate BackInObject(st: State, out: State) {
    Outside(out) && out.depth == st.depth && out.depth in out.seen &&
    forall d | d < st.depth :: (d in st.seen <==> d in out.seen) && (d in st.seen ==> out.seen[d] == st.seen[d])
  }

  lemma {:induction false} ScanMember(m: Member, rest: string, st: State) returns (out: State)
    requires WellFormedMember(m) && Outside(st) && st.depth in st.seen && !ColonNext(rest)
    ensures var key := Decode(m.name).value;
      if key in st.seen[st.depth] || HasDuplicate(m.element.node) then Scan(MemberText(m) + rest, st) == DuplicateKey
      else BackInObject(st, out) && out.seen[out.depth] == st.seen[st.depth] + {key}
           && Scan(MemberText(m) + rest, st) == Scan(rest, out)
    decreases m, 1
  {
    var afterColon := Text(m.element) + rest;
    var afterName := m.between + (":" + afterColon);
    MemberTextSplit(m, rest);
    PassUnmarked(m.before, "\"" + (m.name + ("\"" + afterName)), st);
    BlankBeforeColon(m.between, ":" + afterColon);
    PassName(m.name, afterName, st);
    out := st;
    if Decode(m.name).value !in st.seen[st.depth] {
      var filed := st.(seen := st.seen[st.depth := st.seen[st.depth] + {Decode(m.name).value}]);
      assert afterName == (m.between + ":") + afterColon;
      PassUnmarked(m.between + ":", afterColon, filed);
      out := ScanElement(m.element, rest, filed);
    }
  }

  lemma MemberTextSplit(m: Member, rest: string)
    ensures MemberText(m) + rest ==
      m.before + ("\"" + (m.name + ("\"" + (m.between + (":" + (Text(m.element) + rest))))))
  {
    var t5 := ":" + Text(m.element);
    var t4 := m.between + t5;
    var t3 := "\"" + t4;
    var t2 := m.name + t3;
    var t1 := "\"" + t2;
    assert m.before + t1 + rest == m.before + (t1 + rest);
    assert t1 + rest == "\"" + (t2 + rest);
    assert t2 + rest == m.name + (t3 + rest);
    assert t3 + rest == "\"" + (t4 + rest);
    assert t4 + rest == m.between + (t5 + rest);
    assert t5 + rest == ":" + (Text(m.element) + rest);
  }

  lemma {:induction false} ScanMembers(members: seq<Member>, rest: string, st: State) returns (out: State)
    requires forall i | 0 <= i < |members| :: WellFormedMember(members[i])
    requires Outside(st) && st.depth in st.seen && !ColonNext(rest)
    ensures if Clash(members, st.seen[st.depth]) then Scan(MembersText(members) + rest, st) == DuplicateKey
            else BackInObject(st, out) && Scan(MembersText(members) + rest, st) == Scan(rest, out)
    decreases members, 2
  {
    if members == [] {
      assert MembersText(members) + rest == rest;
      return st;
    }
    var others := members[1..];
    var tail := if |members| == 1 then rest else "," + (MembersText(others) + rest);
    assert MembersText(members) + rest == MemberText(members[0]) + tail;
    ClashSplit(members, st.seen[st.depth]);
    out := ScanMember(members[0], tail, st);
    if |members| > 1 && Decode(members[0].name).value !in st.seen[st.depth]
       && !HasDuplicate(members[0].element.node) {
      PassUnmarked(",", MembersText(others) + rest, out);
      out := ScanMembers(others, rest, out);
    }
  }

  function Entered(st: State): State {
    st.(depth := st.depth + 1, seen := st.seen[st.depth + 1 := {}])
  }

  function Left(st: State): State {
    st.(seen := st.seen[st.depth := {}], depth := st.depth - 1)
  }

  lemma EnterObject(rest: string, st: State)
    requires Outside(st)
    ensures Scan("{" + rest, st) == Scan(rest, Entered(st))
  {
    assert ("{" + rest)[1..] == rest;
  }

  lemma LeaveObject(rest: string, st: State, inner: State)
    requires BackInObject(Entered(st), inner)
    ensures Scan("}" + rest, inner) == Scan(rest, Left(inner)) && Back(st, Left(inner))
  {
    assert ("}" + rest)[1..] == rest;
  }

  lemma ClashIsDuplicate(blank: string, members: seq<Member>)
    ensures Clash(members, {}) == HasDuplicate(Object(blank, members))
  {
  }

  lemma {:induction false} ScanObject(blank: string, members: seq<Member>, rest: string, st: State)
    returns (out: State)
    requires WellFormedNode(Object(blank, members)) && Outside(st)
    ensures NodeOutcome(Object(blank, members), rest, st, out)
    decreases members, 3
  {
    var tail := "}" + rest;
    var body := MembersText(members) + tail;
    assert NodeText(Object(blank, members)) + rest == "{" + (blank + body);
    EnterObject(blank + body, st);
    PassUnmarked(blank, body, Entered(st));
    ClashIsDuplicate(blank, members);
    var inner := ScanMembers(members, tail, Entered(st));
    out := Left(inner);
    if !Clash(members, {}) { LeaveObject(rest, st, inner); }
  }

  // ------------------------------------------------------------------------------------------------- the theorem

  /**
   For every well-formed JSON text, with any nesting, white space and escapes: the scanner rejects it exactly when
   some object has two members whose decoded names are equal, and otherwise ends at its starting depth.
   */
  lemma ScannerAgreesWithTree(document: Element)
    requires WellFormed(document)
    ensures Scan(Text(document), START) == if HasDuplicate(document.node) then DuplicateKey else Passed(0)
  {
    assert Text(document) + "" == Text(document);
    var out := ScanElement(document, "", START);
  }
}
