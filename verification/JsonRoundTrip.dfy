/**
 What the two printers print is a JSON text (RFC 8259) without white space that denotes the printed value, with the
 members of every object in the order of UTF-16 code units; and it passes the scanner for repeated names.
 */
module JsonRoundTrip {
  import opened Prelude
  import opened Utf16
  import opened Order
  import opened Json
  import opened JsonReadability
  import opened CanonicalForm
  import opened JsonText
  import opened JsonDecoding
  import KeyScanner
  import ScannerCorrectness

  // ------------------------------------------------------------------------------------- what a document denotes

  /**
   The document is this JSON value, written without white space.  An object has as many members as the value, each of
   them one of the value's, under names that ascend and so are different: it has every member of the value.
   */
  ghost predicate Denotes(n: Node, v: Value)
    decreases v
  {
    match v
    case Undefined => false
    case Null => n == Token("null")
    case Bool(flag) => n == Token(if flag then "true" else "false")
    case Number(lexeme) => n == Token(lexeme)
    case Str(text) => n.Literal? && StandsFor(n.raw, Units(text))
    case Arr(items) =>
      && n.List? && n.blank == "" && |n.items| == |items|
      && forall i | 0 <= i < |items| :: Tight(n.items[i]) && Denotes(n.items[i].node, items[i])
    case Obj(members) =>
      && n.Object? && n.blank == "" && |n.members| == |members| && NamesAscend(n.members)
      && forall k | 0 <= k < |n.members| :: TightMember(n.members[k]) && OneOf(n.members[k], members)
  }

  ghost predicate OneOf(m: Member, members: seq<Keyed<Value>>)
    decreases members
  {
    exists i | 0 <= i < |members| :: IsMember(m, members[i])
  }

  ghost predicate IsMember(m: Member, member: Keyed<Value>)
    decreases member
  {
    StandsFor(m.name, Units(member.key)) && Denotes(m.element.node, member.item)
  }

  predicate Tight(e: Element) {
    e.before == "" && e.after == ""
  }

  predicate TightMember(m: Member) {
    m.before == "" && m.between == "" && Tight(m.element)
  }

  ghost predicate NamesAscend(members: seq<Member>) {
    && (forall k | 0 <= k < |members| :: Decode(members[k].name).Some?)
    && (forall i, k | 0 <= i < k < |members| :: Before(Decode(members[i].name).value, Decode(members[k].name).value))
  }

  // ---------------------------------------------------------------------------------------- the printed document

  ghost function TreeOf(f: Form): Node
    decreases f, 0
  {
    match f
    case Bare(text) => Token(text)
    case Quoted(text) => Literal(EscapeAll(text))
    case FormList(items) => List("", ItemsOf(items))
    case FormRecord(members) => Object("", MembersOf(members))
  }

  ghost function ItemsOf(items: seq<Form>): seq<Element>
    decreases items, 1
  {
    seq(|items|, i requires 0 <= i < |items| => Element("", TreeOf(items[i]), ""))
  }

  ghost function MembersOf(members: seq<Keyed<Form>>): seq<Member>
    decreases members, 1
  {
    seq(|members|, i requires 0 <= i < |members| =>
      Member("", EscapeAll(members[i].key), "", Element("", TreeOf(members[i].item), "")))
  }

  lemma {:induction false} TreeText(f: Form)
    ensures NodeText(TreeOf(f)) == Render(f)
    decreases f, 0
  {
    match f
    case Bare(_) =>
    case Quoted(_) =>
    case FormList(items) =>
      ItemsText(items);
      assert "" + (JsonText.ItemsText(ItemsOf(items)) + "]") == RenderItems(items) + "]";
    case FormRecord(members) =>
      MembersText(members);
      assert "" + (JsonText.MembersText(MembersOf(members)) + "}") == RenderMembers(members) + "}";
  }

  lemma {:induction false} ItemsText(items: seq<Form>)
    ensures JsonText.ItemsText(ItemsOf(items)) == RenderItems(items)
    decreases items, 1
  {
    if items != [] {
      TreeText(items[0]);
      assert JsonText.Text(ItemsOf(items)[0]) == Render(items[0]);
      ItemsText(items[1..]);
      assert ItemsOf(items)[1..] == ItemsOf(items[1..]);
    }
  }

  lemma {:induction false} MembersText(members: seq<Keyed<Form>>)
    ensures JsonText.MembersText(MembersOf(members)) == RenderMembers(members)
    decreases members, 1
  {
    if members != [] {
      TreeText(members[0].item);
      FirstMemberText(members[0]);
      MembersText(members[1..]);
      assert MembersOf(members)[1..] == MembersOf(members[1..]);
    }
  }

  lemma FirstMemberText(m: Keyed<Form>)
    requires NodeText(TreeOf(m.item)) == Render(m.item)
    ensures MemberText(Member("", EscapeAll(m.key), "", Element("", TreeOf(m.item), ""))) ==
      Quote(m.key) + ":" + Render(m.item)
  {
    var name, value := EscapeAll(m.key), Render(m.item);
    assert JsonText.Text(Element("", TreeOf(m.item), "")) == value;
    assert "" + ("\"" + (name + ("\"" + ("" + (":" + value))))) == "\"" + name + "\"" + ":" + value;
  }

  // --------------------------------------------------------------------------------------------------- the proof

  /** The node is a well-formed document for the value and repeats no name. */
  ghost predicate Stands(n: Node, v: Value) {
    WellFormedNode(n) && Denotes(n, v) && !HasDuplicate(n)
  }

  lemma {:induction false} FormStands(p: Printer, v: Value)
    requires IsJson(v) && Valid(v)
    ensures Stands(TreeOf(FormOf(p, v)), v)
  {
    match v
    case Arr(items) =>
      forall i | 0 <= i < |items| ensures Stands(TreeOf(FormOf(p, items[i])), items[i]) { FormStands(p, items[i]); }
      ListStands(p, items);
    case Obj(members) =>
      forall i | 0 <= i < |members| ensures Stands(TreeOf(FormOf(p, members[i].item)), members[i].item) {
        FormStands(p, members[i].item);
      }
      RecordStands(p, members);
    case Str(text) => TextStands(text);
    case _ =>
  }

  lemma TextStands(text: string)
    ensures Decode(EscapeAll(text)) == Some(Units(text)) && StandsFor(EscapeAll(text), Units(text))
  {
    EscapedDecodes(text);
    DecodeExactly(EscapeAll(text), Units(text));
  }

  lemma JsonItemsKeepForms(p: Printer, items: seq<Value>)
    requires IsJson(Arr(items))
    ensures FormOf(p, Arr(items)) == FormList(ItemForms(p, items))
    ensures forall i | 0 <= i < |items| :: ItemForms(p, items)[i] == FormOf(p, items[i])
  {
    forall i | 0 <= i < |items| ensures !items[i].Undefined? { assert IsJson(items[i]); }
    assert Undefined !in items && Undefined in [Undefined];
  }

  lemma ListStands(p: Printer, items: seq<Value>)
    requires IsJson(Arr(items))
    requires forall i | 0 <= i < |items| :: Stands(TreeOf(FormOf(p, items[i])), items[i])
    ensures Stands(TreeOf(FormOf(p, Arr(items))), Arr(items))
  {
    JsonItemsKeepForms(p, items);
    var found := ItemsOf(ItemForms(p, items));
    forall i | 0 <= i < |items|
      ensures WellFormed(found[i]) && Tight(found[i])
      ensures Denotes(found[i].node, items[i]) && !HasDuplicate(found[i].node)
    {
      assert Stands(TreeOf(FormOf(p, items[i])), items[i]);
    }
    assert TreeOf(FormOf(p, Arr(items))) == List("", found);
  }

  /** The member is the object's member as printed. */
  ghost predicate Faithful(m: Member, member: Keyed<Value>) {
    && IsMember(m, member) && Decode(m.name) == Some(Units(member.key))
    && WellFormedMember(m) && TightMember(m) && !HasDuplicate(m.element.node)
  }

  lemma PrintedMember(p: Printer, member: Keyed<Value>)
    requires Stands(TreeOf(FormOf(p, member.item)), member.item)
    ensures Faithful(Member("", EscapeAll(member.key), "", Element("", TreeOf(FormOf(p, member.item)), "")), member)
  {
    TextStands(member.key);
  }

  lemma SortedMember(p: Printer, members: seq<Keyed<Value>>, k: nat) returns (i: nat)
    requires forall i | 0 <= i < |members| :: Stands(TreeOf(FormOf(p, members[i].item)), members[i].item)
    requires k < |Sort(FormMembers(p, members))|
    ensures i < |members| && Sort(FormMembers(p, members))[k].key == members[i].key
    ensures Faithful(MembersOf(Sort(FormMembers(p, members)))[k], members[i])
  {
    var forms := FormMembers(p, members);
    i := SortedEntryIsOld(forms, k);
    assert forms[i] == Keyed(members[i].key, FormOf(p, members[i].item));
    PrintedMember(p, members[i]);
  }

  lemma NamesInOrder(a: string, b: string)
    requires Less(a, b)
    ensures Before(Units(a), Units(b)) && Units(a) != Units(b)
  {
    LessIsUnitOrder(a, b);
    LessTotal(a, b);
    UnitsDetermine(a, b);
  }

  lemma RecordStands(p: Printer, members: seq<Keyed<Value>>)
    requires DistinctKeys(members)
    requires forall i | 0 <= i < |members| :: Stands(TreeOf(FormOf(p, members[i].item)), members[i].item)
    ensures Stands(TreeOf(FormOf(p, Obj(members))), Obj(members))
  {
    var forms := FormMembers(p, members);
    var sorted := Sort(forms);
    var found := MembersOf(sorted);
    SortIsPermutation(forms);
    SortIsStrict(forms);
    forall k | 0 <= k < |found|
      ensures Decode(found[k].name) == Some(Units(sorted[k].key))
      ensures exists i | 0 <= i < |members| :: Faithful(found[k], members[i])
    {
      var i := SortedMember(p, members, k);
    }
    forall i, k | 0 <= i < k < |found|
      ensures Before(Decode(found[i].name).value, Decode(found[k].name).value) && !SameName(found[i], found[k])
    {
      NamesInOrder(sorted[i].key, sorted[k].key);
    }
    MembersStand(found, members);
    assert FormOf(p, Obj(members)) == FormRecord(sorted);
  }

  lemma MembersStand(found: seq<Member>, members: seq<Keyed<Value>>)
    requires |found| == |members| && NamesAscend(found)
    requires forall i, k | 0 <= i < k < |found| :: !SameName(found[i], found[k])
    requires forall k | 0 <= k < |found| :: exists i | 0 <= i < |members| :: Faithful(found[k], members[i])
    ensures Stands(Object("", found), Obj(members))
  {
    forall k | 0 <= k < |found|
      ensures WellFormedMember(found[k]) && TightMember(found[k]) && !HasDuplicate(found[k].element.node)
      ensures OneOf(found[k], members)
    {
      var i :| 0 <= i < |members| && Faithful(found[k], members[i]);
      assert IsMember(found[k], members[i]);
    }
    MembersDenote(found, members);
    NothingRepeats(found);
    assert WellFormedNode(Object("", found));
  }

  lemma MembersDenote(found: seq<Member>, members: seq<Keyed<Value>>)
    requires |found| == |members| && NamesAscend(found)
    requires forall k | 0 <= k < |found| :: TightMember(found[k]) && OneOf(found[k], members)
    ensures Denotes(Object("", found), Obj(members))
  {
  }

  lemma NothingRepeats(found: seq<Member>)
    requires forall i, k | 0 <= i < k < |found| :: !SameName(found[i], found[k])
    requires forall k | 0 <= k < |found| :: !HasDuplicate(found[k].element.node)
    ensures !HasDuplicate(Object("", found))
  {
  }

  /** The printed text of a JSON value is a JSON text that denotes the value. */
  lemma PrintedTextDenotes(p: Printer, v: Value)
    requires IsJson(v) && Valid(v)
    ensures exists n :: NodeText(n) == Print(p, v) && WellFormedNode(n) && Denotes(n, v)
  {
    FormStands(p, v);
    TreeText(FormOf(p, v));
    PrintIsRender(p, v);
    assert NodeText(TreeOf(FormOf(p, v))) == Print(p, v);
  }

  /** And the scanner that guards signed statements never rejects it. */
  lemma PrintedTextPassesScanner(p: Printer, v: Value)
    requires IsJson(v) && Valid(v)
    ensures KeyScanner.Scan(Print(p, v), KeyScanner.START) == KeyScanner.Passed(0)
  {
    FormStands(p, v);
    TreeText(FormOf(p, v));
    PrintIsRender(p, v);
    var document := Element("", TreeOf(FormOf(p, v)), "");
    assert JsonText.Text(document) == Print(p, v);
    ScannerCorrectness.ScannerAgreesWithTree(document);
  }
}
