/** The canonical-form theorem for both printers. */
module CanonicalForm {
  import opened Order
  import opened Json
  import opened JsonReadability

  // ------------------------------------------------------------------ every printed text is the rendering of a form

  ghost function FormMembers(p: Printer, members: seq<Keyed<Value>>): (r: seq<Keyed<Form>>) {
    seq(|members|, i requires 0 <= i < |members| => Keyed(members[i].key, FormOf(p, members[i].item)))
  }

  ghost function ItemForms(p: Printer, items: seq<Value>): seq<Form> {
    seq(|items|, i requires 0 <= i < |items| => ItemForm(p, items[i]))
  }

  ghost function RenderedMembers(members: seq<Keyed<Form>>): seq<Keyed<string>> {
    seq(|members|, i requires 0 <= i < |members| => Keyed(members[i].key, Render(members[i].item)))
  }

  lemma {:induction false} InsertRendered(x: Keyed<Form>, s: seq<Keyed<Form>>)
    ensures Insert(Keyed(x.key, Render(x.item)), RenderedMembers(s)) == RenderedMembers(Insert(x, s))
  {
    var y := Keyed(x.key, Render(x.item));
    if s == [] || !Less(s[0].key, x.key) {
      assert RenderedMembers([x] + s) == [y] + RenderedMembers(s);
    } else {
      InsertRendered(x, s[1..]);
      assert RenderedMembers(s)[1..] == RenderedMembers(s[1..]);
      assert RenderedMembers([s[0]] + Insert(x, s[1..])) == [RenderedMembers(s)[0]] + RenderedMembers(Insert(x, s[1..]));
    }
  }

  /** Sorting printed members is printing sorted members. */
  lemma {:induction false} SortRendered(s: seq<Keyed<Form>>)
    ensures Sort(RenderedMembers(s)) == RenderedMembers(Sort(s))
  {
    if s != [] {
      SortRendered(s[1..]);
      InsertRendered(s[0], Sort(s[1..]));
      assert RenderedMembers(s)[1..] == RenderedMembers(s[1..]);
    }
  }

  lemma {:induction false} JoinItems(items: seq<Form>)
    ensures Join(seq(|items|, i requires 0 <= i < |items| => Render(items[i]))) == RenderItems(items)
  {
    var texts := seq(|items|, i requires 0 <= i < |items| => Render(items[i]));
    if |items| > 1 {
      var rest := items[1..];
      JoinItems(rest);
      assert texts[1..] == seq(|rest|, i requires 0 <= i < |rest| => Render(rest[i]));
    }
  }

  lemma {:induction false} JoinMembers(members: seq<Keyed<Form>>)
    ensures Join(Entries(RenderedMembers(members))) == RenderMembers(members)
  {
    if |members| > 1 {
      JoinMembers(members[1..]);
      assert Entries(RenderedMembers(members))[1..] == Entries(RenderedMembers(members[1..]));
    }
  }

  lemma {:induction false} PrintIsRender(p: Printer, v: Value)
    ensures Print(p, v) == Render(FormOf(p, v))
    ensures PrintItem(p, v) == Render(ItemForm(p, v))
  {
    match v
    case Arr(items) =>
      forall i | 0 <= i < |items| { PrintIsRender(p, items[i]); }
      var forms := ItemForms(p, items);
      assert seq(|items|, i requires 0 <= i < |items| => PrintItem(p, items[i]))
          == seq(|forms|, i requires 0 <= i < |forms| => Render(forms[i]));
      JoinItems(forms);
      if p.Ledger? && items == [Undefined] {
        assert forms == [Bare("")];
      } else {
        assert FormOf(p, v) == FormList(forms);
      }
    case Obj(members) =>
      forall i | 0 <= i < |members| { PrintIsRender(p, members[i].item); }
      var forms := FormMembers(p, members);
      assert seq(|members|, i requires 0 <= i < |members| => Keyed(members[i].key, Print(p, members[i].item)))
          == RenderedMembers(forms);
      SortRendered(forms);
      JoinMembers(Sort(forms));
      assert FormOf(p, v) == FormRecord(Sort(forms));
    case _ =>
  }

  lemma {:induction false} FormIsReadable(p: Printer, v: Value)
    requires Valid(v)
    ensures Readable(FormOf(p, v)) && Readable(ItemForm(p, v))
    ensures FormOf(p, v) != Bare("") && (ItemForm(p, v) == Bare("") <==> p.Ledger? && v.Undefined?)
  {
    match v
    case Arr(items) =>
      forall i | 0 <= i < |items| { FormIsReadable(p, items[i]); }
      ListIsReadable(p, items);
    case Obj(members) =>
      forall i | 0 <= i < |members| { FormIsReadable(p, members[i].item); }
      RecordIsReadable(p, members);
    case _ =>
      ScalarIsReadable(p, v);
  }

  lemma ScalarIsReadable(p: Printer, v: Value)
    requires Valid(v) && !v.Arr? && !v.Obj?
    ensures Readable(FormOf(p, v)) && Readable(ItemForm(p, v))
    ensures FormOf(p, v) != Bare("") && (ItemForm(p, v) == Bare("") <==> p.Ledger? && v.Undefined?)
  {
    var f := FormOf(p, v);
    if f.Bare? {
      assert |f.text| > 0;
      forall c | c in f.text ensures !Structural(c) {
      }
    }
  }

  lemma ListIsReadable(p: Printer, items: seq<Value>)
    requires forall i | 0 <= i < |items| :: Readable(ItemForm(p, items[i]))
    requires forall i | 0 <= i < |items| :: ItemForm(p, items[i]) == Bare("") <==> p.Ledger? && items[i].Undefined?
    ensures Readable(FormOf(p, Arr(items)))
  {
    var forms := ItemForms(p, items);
    if !(p.Ledger? && items == [Undefined]) {
      assert FormOf(p, Arr(items)) == FormList(forms);
      assert |items| == 1 ==> items == [items[0]] && forms[0] != Bare("");
      assert forms != [Bare("")];
    }
  }

  lemma RecordIsReadable(p: Printer, members: seq<Keyed<Value>>)
    requires forall i | 0 <= i < |members| :: Readable(FormOf(p, members[i].item))
    ensures Readable(FormOf(p, Obj(members)))
  {
    var forms := FormMembers(p, members);
    SortIsPermutation(forms);
    forall i | 0 <= i < |Sort(forms)| ensures Readable(Sort(forms)[i].item) {
      assert Sort(forms)[i] in multiset(forms);
    }
    assert FormOf(p, Obj(members)) == FormRecord(Sort(forms));
  }

  // ------------------------------------------------------------------------------- forms and meanings correspond

  ghost function MeaningMembers(p: Printer, members: seq<Keyed<Value>>): (r: seq<Keyed<Meaning>>) {
    seq(|members|, i requires 0 <= i < |members| => Keyed(members[i].key, MeaningOf(p, members[i].item)))
  }

  lemma {:induction false} MapOfLookup(s: seq<Keyed<Meaning>>)
    requires DistinctKeys(s)
    ensures forall i | 0 <= i < |s| :: s[i].key in MapOf(s) && MapOf(s)[s[i].key] == s[i].item
    ensures forall k | k in MapOf(s) :: exists i | 0 <= i < |s| :: s[i].key == k
  {
    if s != [] {
      var rest := s[1..];
      assert forall i | 0 <= i < |rest| :: rest[i] == s[i + 1];
      MapOfLookup(rest);
      assert s[0].key !in MapOf(rest);
      forall k | k in MapOf(s) ensures exists i | 0 <= i < |s| :: s[i].key == k {
        if k in MapOf(rest) {
          var i :| 0 <= i < |rest| && rest[i].key == k;
          assert s[i + 1].key == k;
        } else {
          assert s[0].key == k;
        }
      }
    }
  }

  /** The forms and meanings of the members of two objects: two items have the same form exactly when they mean the same. */
  ghost predicate Agree(fa: seq<Keyed<Form>>, ma: seq<Keyed<Meaning>>, fb: seq<Keyed<Form>>, mb: seq<Keyed<Meaning>>) {
    && |fa| == |ma| && |fb| == |mb|
    && (forall i | 0 <= i < |fa| :: fa[i].key == ma[i].key)
    && (forall i | 0 <= i < |fb| :: fb[i].key == mb[i].key)
    && (forall i, j | 0 <= i < |fa| && 0 <= j < |fb| :: fa[i].item == fb[j].item <==> ma[i].item == mb[j].item)
  }

  /** Objects have the same sorted form exactly when they are the same map, given that their members agree. */
  lemma MembersCorrespond(fa: seq<Keyed<Form>>, ma: seq<Keyed<Meaning>>, fb: seq<Keyed<Form>>, mb: seq<Keyed<Meaning>>)
    requires Agree(fa, ma, fb, mb) && Agree(fb, mb, fa, ma) && DistinctKeys(ma) && DistinctKeys(mb)
    ensures Sort(fa) == Sort(fb) <==> MapOf(ma) == MapOf(mb)
  {
    assert DistinctKeys(fa) && DistinctKeys(fb);
    SortForgetsOrder(fa, fb);
    if multiset(fa) == multiset(fb) {
      SubMap(fa, ma, fb, mb);
      SubMap(fb, mb, fa, ma);
    }
    if MapOf(ma) == MapOf(mb) { SameMapSameForms(fa, ma, fb, mb); }
  }

  lemma SameMapSameForms(fa: seq<Keyed<Form>>, ma: seq<Keyed<Meaning>>, fb: seq<Keyed<Form>>, mb: seq<Keyed<Meaning>>)
    requires Agree(fa, ma, fb, mb) && Agree(fb, mb, fa, ma) && DistinctKeys(ma) && DistinctKeys(mb)
    requires MapOf(ma) == MapOf(mb)
    ensures multiset(fa) == multiset(fb)
  {
    forall x ensures x in fa <==> x in fb {
      if x in fa { SameEntry(fa, ma, fb, mb, x); }
      if x in fb { SameEntry(fb, mb, fa, ma, x); }
    }
    DistinctSameMembers(fa, fb);
  }

  lemma SubMap(fa: seq<Keyed<Form>>, ma: seq<Keyed<Meaning>>, fb: seq<Keyed<Form>>, mb: seq<Keyed<Meaning>>)
    requires Agree(fa, ma, fb, mb) && DistinctKeys(ma) && DistinctKeys(mb) && multiset(fa) == multiset(fb)
    ensures forall k | k in MapOf(ma) :: k in MapOf(mb) && MapOf(ma)[k] == MapOf(mb)[k]
  {
    MapOfLookup(ma);
    MapOfLookup(mb);
    forall k | k in MapOf(ma) ensures k in MapOf(mb) && MapOf(ma)[k] == MapOf(mb)[k] {
      var i :| 0 <= i < |ma| && ma[i].key == k;
      assert fa[i] in multiset(fb);
      var j :| 0 <= j < |fb| && fb[j] == fa[i];
      assert mb[j] == ma[i];
    }
  }

  lemma SameEntry(fa: seq<Keyed<Form>>, ma: seq<Keyed<Meaning>>, fb: seq<Keyed<Form>>, mb: seq<Keyed<Meaning>>,
    x: Keyed<Form>)
    requires Agree(fa, ma, fb, mb) && DistinctKeys(ma) && DistinctKeys(mb) && MapOf(ma) == MapOf(mb) && x in fa
    ensures x in fb
  {
    MapOfLookup(ma);
    MapOfLookup(mb);
    var i :| 0 <= i < |fa| && fa[i] == x;
    assert ma[i].key in MapOf(mb);
    var j :| 0 <= j < |mb| && mb[j].key == ma[i].key;
    assert mb[j].item == ma[i].item;
    assert fb[j] == x;
  }

  lemma {:induction false} FormsCorrespond(p: Printer, a: Value, b: Value)
    requires Valid(a) && Valid(b)
    ensures FormOf(p, a) == FormOf(p, b) <==> MeaningOf(p, a) == MeaningOf(p, b)
    ensures ItemForm(p, a) == ItemForm(p, b) <==> MeaningOf(p, a) == MeaningOf(p, b)
  {
    FormIsReadable(p, a);
    FormIsReadable(p, b);
    match (a, b)
    case (Arr(x), Arr(y)) =>
      forall i, j | 0 <= i < |x| && 0 <= j < |y| { FormsCorrespond(p, x[i], y[j]); }
      ListsCorrespond(p, x, y);
    case (Obj(x), Obj(y)) =>
      forall i, j | 0 <= i < |x| && 0 <= j < |y|
        ensures FormOf(p, x[i].item) == FormOf(p, y[j].item) <==> MeaningOf(p, x[i].item) == MeaningOf(p, y[j].item)
      {
        FormsCorrespond(p, x[i].item, y[j].item);
      }
      RecordsCorrespond(p, x, y);
    case _ =>
  }

  lemma RecordsCorrespond(p: Printer, x: seq<Keyed<Value>>, y: seq<Keyed<Value>>)
    requires DistinctKeys(x) && DistinctKeys(y)
    requires forall i, j | 0 <= i < |x| && 0 <= j < |y| ::
      FormOf(p, x[i].item) == FormOf(p, y[j].item) <==> MeaningOf(p, x[i].item) == MeaningOf(p, y[j].item)
    ensures FormOf(p, Obj(x)) == FormOf(p, Obj(y)) <==> MeaningOf(p, Obj(x)) == MeaningOf(p, Obj(y))
  {
    MembersCorrespond(FormMembers(p, x), MeaningMembers(p, x), FormMembers(p, y), MeaningMembers(p, y));
    assert FormOf(p, Obj(x)) == FormRecord(Sort(FormMembers(p, x)));
    assert FormOf(p, Obj(y)) == FormRecord(Sort(FormMembers(p, y)));
    assert MeaningOf(p, Obj(x)) == Record(MapOf(MeaningMembers(p, x)));
    assert MeaningOf(p, Obj(y)) == Record(MapOf(MeaningMembers(p, y)));
  }

  lemma ListsCorrespond(p: Printer, x: seq<Value>, y: seq<Value>)
    requires forall i, j | 0 <= i < |x| && 0 <= j < |y| ::
      ItemForm(p, x[i]) == ItemForm(p, y[j]) <==> MeaningOf(p, x[i]) == MeaningOf(p, y[j])
    ensures FormOf(p, Arr(x)) == FormOf(p, Arr(y)) <==> MeaningOf(p, Arr(x)) == MeaningOf(p, Arr(y))
  {
    var fx, fy := FormOf(p, Arr(x)).items, FormOf(p, Arr(y)).items;
    var mx, my := MeaningOf(p, Arr(x)).items, MeaningOf(p, Arr(y)).items;
    assert |fx| == |mx| && |fy| == |my|;
    if fx == fy {
      forall i | 0 <= i < |mx| ensures mx[i] == my[i] {
        assert fx[i] == ItemForm(p, x[i]) && fy[i] == ItemForm(p, y[i]);
      }
      assert mx == my;
    }
    if mx == my {
      forall i | 0 <= i < |fx| ensures fx[i] == fy[i] {
        assert mx[i] == MeaningOf(p, x[i]) && my[i] == MeaningOf(p, y[i]);
      }
      assert fx == fy;
    }
  }

  // ---------------------------------------------------------------------------------------------- the theorems

  /**
   Two values print the same text exactly when they mean the same, whatever the order of their members; and a
   printed text followed by a delimiter cannot be read in two ways.
   */
  lemma PrintedTextStandsForValue(p: Printer, a: Value, b: Value, x: string, y: string)
    requires Valid(a) && Valid(b) && Delimited(x) && Delimited(y)
    ensures Print(p, a) + x == Print(p, b) + y <==> MeaningOf(p, a) == MeaningOf(p, b) && x == y
  {
    PrintIsRender(p, a);
    PrintIsRender(p, b);
    FormIsReadable(p, a);
    FormIsReadable(p, b);
    FormsCorrespond(p, a, b);
    if Print(p, a) + x == Print(p, b) + y { RenderReadable(FormOf(p, a), FormOf(p, b), x, y); }
  }

  /** The canonical-form law on whole texts. */
  lemma CanonicalTextIsMeaning(p: Printer, a: Value, b: Value)
    requires Valid(a) && Valid(b)
    ensures Print(p, a) == Print(p, b) <==> MeaningOf(p, a) == MeaningOf(p, b)
  {
    PrintedTextStandsForValue(p, a, b, "", "");
    assert Print(p, a) + "" == Print(p, a) && Print(p, b) + "" == Print(p, b);
  }

  /** On JSON values the two printers identify exactly the same pairs. */
  lemma PrintersAgreeOnJson(a: Value, b: Value)
    requires Valid(a) && Valid(b) && IsJson(a) && IsJson(b)
    ensures Print(Workforce, a) == Print(Workforce, b) <==> Print(Ledger, a) == Print(Ledger, b)
  {
    CanonicalTextIsMeaning(Workforce, a, b);
    CanonicalTextIsMeaning(Ledger, a, b);
    MeaningOfJson(a);
    MeaningOfJson(b);
  }

  /** Listing the members of an object in another order never shows in the text. */
  lemma MemberOrderIsForgotten(p: Printer, a: seq<Keyed<Value>>, b: seq<Keyed<Value>>)
    requires Valid(Obj(a)) && Valid(Obj(b)) && multiset(a) == multiset(b)
    ensures Print(p, Obj(a)) == Print(p, Obj(b))
  {
    SameMembersSubMap(p, a, b);
    SameMembersSubMap(p, b, a);
    assert MapOf(MeaningMembers(p, a)) == MapOf(MeaningMembers(p, b));
    assert MeaningOf(p, Obj(a)) == Record(MapOf(MeaningMembers(p, a)));
    assert MeaningOf(p, Obj(b)) == Record(MapOf(MeaningMembers(p, b)));
    CanonicalTextIsMeaning(p, Obj(a), Obj(b));
  }

  lemma SameMembersSubMap(p: Printer, a: seq<Keyed<Value>>, b: seq<Keyed<Value>>)
    requires DistinctKeys(a) && DistinctKeys(b) && multiset(a) == multiset(b)
    ensures forall k | k in MapOf(MeaningMembers(p, a)) ::
      k in MapOf(MeaningMembers(p, b)) && MapOf(MeaningMembers(p, a))[k] == MapOf(MeaningMembers(p, b))[k]
  {
    var ma, mb := MeaningMembers(p, a), MeaningMembers(p, b);
    assert DistinctKeys(ma) && DistinctKeys(mb);
    MapOfLookup(ma);
    MapOfLookup(mb);
    forall k | k in MapOf(ma) ensures k in MapOf(mb) && MapOf(ma)[k] == MapOf(mb)[k] {
      var i :| 0 <= i < |ma| && ma[i].key == k;
      assert a[i] in multiset(b);
      var j :| 0 <= j < |b| && b[j] == a[i];
      assert mb[j] == ma[i];
    }
  }
}
