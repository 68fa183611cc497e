/** What a request fingerprint identifies. */
module Fingerprint {
  import opened Prelude
  import opened Order
  import opened Json
  import opened JsonReadability
  import opened CanonicalForm
  import opened Money
  import opened LedgerTables
  import opened LedgerCommands

  /** What a set of entries does to the balance of one account. */
  function EntryEffect(entries: seq<Entry>, id: string, normal: Direction): int {
    if entries == [] then 0
    else
      var last := entries[|entries| - 1];
      EntryEffect(entries[..|entries| - 1], id, normal)
      + SingleEffect(last, id, normal)
  }

  lemma {:induction false} EffectAppend(a: seq<Entry>, b: seq<Entry>, id: string, normal: Direction)
    ensures EntryEffect(a + b, id, normal) == EntryEffect(a, id, normal) + EntryEffect(b, id, normal)
  {
    if b == [] {
      assert a + b == a;
    } else {
      assert (a + b)[..|a + b| - 1] == a + b[..|b| - 1];
      EffectAppend(a, b[..|b| - 1], id, normal);
    }
  }

  /** The effect of a journal does not depend on the order of its lines. */
  lemma {:induction false} EffectOfMultiset(a: seq<Entry>, b: seq<Entry>, id: string, normal: Direction)
    requires multiset(a) == multiset(b)
    ensures EntryEffect(a, id, normal) == EntryEffect(b, id, normal)
    decreases |a|
  {
    assert |multiset(a)| == |multiset(b)|;
    if a != [] {
      assert a[0] in multiset(b);
      var j :| 0 <= j < |b| && b[j] == a[0];
      var restA := TakeOut(a, 0, id, normal);
      var restB := TakeOut(b, j, id, normal);
      EffectOfMultiset(restA, restB, id, normal);
    }
  }

  function SingleEffect(e: Entry, id: string, normal: Direction): int {
    if e.accountId == id then SignedAmount(e.direction, normal, e.amount) else 0
  }

  lemma TakeOut(s: seq<Entry>, j: nat, id: string, normal: Direction) returns (rest: seq<Entry>)
    requires j < |s|
    ensures |rest| < |s| && multiset(rest) == multiset(s) - multiset{s[j]}
    ensures EntryEffect(s, id, normal) == EntryEffect(rest, id, normal) + SingleEffect(s[j], id, normal)
  {
    rest := s[..j] + s[j + 1..];
    assert s == s[..j] + [s[j]] + s[j + 1..];
    EffectAppend(s[..j], s[j + 1..], id, normal);
    EffectAppend(s[..j + 1], s[j + 1..], id, normal);
    assert s == s[..j + 1] + s[j + 1..];
    assert s[..j + 1][..j] == s[..j];
  }

  // ---------------------------------------------------------------------------------------------- entry values

  lemma SignedDecimalInjective(m: int, n: int)
    requires AmountText(m) == AmountText(n)
    ensures m == n
  {
    var text := AmountText(m);
    if m < 0 { assert text[0] == '-' && text[1..] == ToDecimal(-m); } else { ToDecimalIsNumeral(m); }
    if n < 0 { assert text[0] == '-' && text[1..] == ToDecimal(-n); } else { ToDecimalIsNumeral(n); }
    assert IsDigits(text) ==> IsDigit(text[0]);
    if m < 0 {
      ToDecimalInjective(-m, -n);
    } else {
      ToDecimalInjective(m, n);
    }
  }

  /** Objects with the same keys in the same places mean the same exactly when their members do, place by place. */
  lemma AlignedObjects(p: Printer, a: seq<Keyed<Value>>, b: seq<Keyed<Value>>)
    requires DistinctKeys(a) && |a| == |b| && forall i | 0 <= i < |a| :: a[i].key == b[i].key
    ensures MeaningOf(p, Obj(a)) == MeaningOf(p, Obj(b)) <==>
      forall i | 0 <= i < |a| :: MeaningOf(p, a[i].item) == MeaningOf(p, b[i].item)
  {
    var s, t := MeaningMembers(p, a), MeaningMembers(p, b);
    assert MeaningOf(p, Obj(a)) == Record(MapOf(s)) && MeaningOf(p, Obj(b)) == Record(MapOf(t));
    AlignedMaps(s, t);
    MembersAgree(p, a, b);
  }

  /** Equal texts of objects with the same keys in the same places have equal meanings in every place. */
  lemma AlignedTexts(p: Printer, a: seq<Keyed<Value>>, b: seq<Keyed<Value>>)
    requires Valid(Obj(a)) && Valid(Obj(b)) && Print(p, Obj(a)) == Print(p, Obj(b))
    requires DistinctKeys(a) && |a| == |b| && forall i | 0 <= i < |a| :: a[i].key == b[i].key
    ensures forall i | 0 <= i < |a| :: MeaningOf(p, a[i].item) == MeaningOf(p, b[i].item)
  {
    CanonicalTextIsMeaning(p, Obj(a), Obj(b));
    AlignedObjects(p, a, b);
  }

  lemma MembersAgree(p: Printer, a: seq<Keyed<Value>>, b: seq<Keyed<Value>>)
    requires |a| == |b| && forall i | 0 <= i < |a| :: a[i].key == b[i].key
    ensures MeaningMembers(p, a) == MeaningMembers(p, b) <==>
      forall i | 0 <= i < |a| :: MeaningOf(p, a[i].item) == MeaningOf(p, b[i].item)
  {
    var s, t := MeaningMembers(p, a), MeaningMembers(p, b);
    forall i | 0 <= i < |a|
      ensures s[i] == t[i] <==> MeaningOf(p, a[i].item) == MeaningOf(p, b[i].item) {}
  }

  lemma AlignedMaps(s: seq<Keyed<Meaning>>, t: seq<Keyed<Meaning>>)
    requires DistinctKeys(s) && |s| == |t| && forall i | 0 <= i < |s| :: s[i].key == t[i].key
    ensures MapOf(s) == MapOf(t) <==> s == t
  {
    assert DistinctKeys(t);
    MapOfLookup(s);
    MapOfLookup(t);
    if MapOf(s) == MapOf(t) {
      forall i | 0 <= i < |s| ensures s[i] == t[i] {
        assert MapOf(s)[s[i].key] == s[i].item && MapOf(t)[t[i].key] == t[i].item;
      }
    }
  }

  lemma TextMeaning(p: Printer, x: string, y: string)
    ensures MeaningOf(p, Str(x)) == MeaningOf(p, Str(y)) <==> x == y
  {
  }

  lemma DirectionTextInjective(a: Direction, b: Direction)
    ensures DirectionText(a) == DirectionText(b) <==> a == b
  {
    assert "DEBIT"[0] != "CREDIT"[0];
  }

  lemma EntryMeaningInjective(p: Printer, a: Entry, b: Entry)
    ensures MeaningOf(p, EntryValue(a)) == MeaningOf(p, EntryValue(b)) <==> a == b
  {
    var s, t := EntryValue(a).members, EntryValue(b).members;
    AlignedObjects(p, s, t);
    if MeaningOf(p, EntryValue(a)) == MeaningOf(p, EntryValue(b)) {
      assert MeaningOf(p, s[0].item) == MeaningOf(p, t[0].item);
      assert MeaningOf(p, s[1].item) == MeaningOf(p, t[1].item);
      assert MeaningOf(p, s[2].item) == MeaningOf(p, t[2].item);
      TextMeaning(p, a.accountId, b.accountId);
      TextMeaning(p, DirectionText(a.direction), DirectionText(b.direction));
      DirectionTextInjective(a.direction, b.direction);
      TextMeaning(p, AmountText(a.amount), AmountText(b.amount));
      SignedDecimalInjective(a.amount, b.amount);
    }
  }

  // ------------------------------------------------------------------------------------------------ sorted lines

  ghost function EntryForm(e: Entry): Form {
    FormRecord([Keyed("accountId", Quoted(e.accountId)), Keyed("direction", Quoted(DirectionText(e.direction))),
                Keyed("amountMinor", Quoted(AmountText(e.amount)))])
  }

  lemma ThreeMembers(s: seq<Keyed<Value>>, f: seq<Keyed<Form>>)
    requires |s| == |f| == 3
    requires forall i | 0 <= i < 3 :: s[i].item.Str? && f[i] == Keyed(s[i].key, Quoted(s[i].item.text))
    ensures Stringify(Obj(s)) == Render(FormRecord(f))
  {
    var x, y, z := Quote(s[0].key) + ":" + Quote(s[0].item.text), Quote(s[1].key) + ":" + Quote(s[1].item.text),
      Quote(s[2].key) + ":" + Quote(s[2].item.text);
    assert StringifyMembers(s[2..]) == [z];
    assert s[1..][1..] == s[2..];
    assert StringifyMembers(s[1..]) == [y, z];
    assert StringifyMembers(s) == [x, y, z];
    assert Join([z]) == z == RenderMembers(f[2..]);
    assert [y, z][1..] == [z] && f[1..][1..] == f[2..];
    assert Join([y, z]) == RenderMembers(f[1..]);
    assert [x, y, z][1..] == [y, z];
    assert Join([x, y, z]) == RenderMembers(f);
  }

  lemma EntryText(e: Entry)
    ensures SortText(e) == Render(EntryForm(e)) && Readable(EntryForm(e))
  {
    ThreeMembers(EntryValue(e).members, EntryForm(e).members);
  }

  /** The text a line is sorted by determines the line. */
  lemma SortTextDeterminesEntry(a: Entry, b: Entry)
    requires SortText(a) == SortText(b)
    ensures a == b
  {
    var f, g := EntryForm(a), EntryForm(b);
    EntryText(a);
    EntryText(b);
    SameRendering(f, g);
    assert f.members[0].item == g.members[0].item && f.members[1].item == g.members[1].item
        && f.members[2].item == g.members[2].item;
    DirectionTextInjective(a.direction, b.direction);
    SignedDecimalInjective(a.amount, b.amount);
  }

  lemma SameRendering(f: Form, g: Form)
    requires Readable(f) && Readable(g) && Render(f) == Render(g)
    ensures f == g
  {
    assert Render(f) + "" == Render(f) && Render(g) + "" == Render(g);
    RenderReadable(f, g, "", "");
  }

  lemma SortedEntriesForgetOrder(a: seq<Entry>, b: seq<Entry>)
    ensures SortedEntries(a) == SortedEntries(b) <==> multiset(a) == multiset(b)
  {
    forall x, y | x in a && y in a && SortText(x) == SortText(y) ensures x == y { SortTextDeterminesEntry(x, y); }
    SortByForgetsOrder(a, b, SortText);
    var s, t := Sort(FileBy(a, SortText)), Sort(FileBy(b, SortText));
    if SortedEntries(a) == SortedEntries(b) {
      assert |SortedEntries(a)| == |s| && |SortedEntries(b)| == |t|;
      forall i | 0 <= i < |s| ensures s[i] == t[i] {
        SortedItemIsFiled(a, SortText, i);
        SortedItemIsFiled(b, SortText, i);
        assert SortedEntries(a)[i] == s[i].item && SortedEntries(b)[i] == t[i].item;
      }
      assert s == t;
    }
  }

  lemma EntryListMeaning(x: seq<Entry>, y: seq<Entry>)
    ensures MeaningOf(Ledger, Arr(EntryValues(x))) == MeaningOf(Ledger, Arr(EntryValues(y))) <==> x == y
  {
    var u, v := EntryValues(x), EntryValues(y);
    assert u != [] ==> u[0].Obj?;
    assert v != [] ==> v[0].Obj?;
    var mx, my := MeaningOf(Ledger, Arr(u)), MeaningOf(Ledger, Arr(v));
    assert |mx.items| == |x| && |my.items| == |y|;
    if mx == my {
      forall i | 0 <= i < |x| ensures x[i] == y[i] {
        assert mx.items[i] == MeaningOf(Ledger, u[i]) && my.items[i] == MeaningOf(Ledger, v[i]);
        EntryMeaningInjective(Ledger, x[i], y[i]);
      }
    }
  }

  // ------------------------------------------------------------------------------------------------ the theorem

  ghost predicate SameRequest(a: Normalized, b: Normalized) {
    && a.currency == b.currency && a.unit == b.unit
    && a.reference == b.reference && a.description == b.description && a.correlationId == b.correlationId
    && a.reversalOf == b.reversalOf
    && MeaningOf(Ledger, a.metadata) == MeaningOf(Ledger, b.metadata)
    && multiset(a.entries) == multiset(b.entries)
  }

  ghost predicate Hashed(c: Normalized) {
    Valid(c.metadata) && Fingerprinted(c)
  }

  ghost function RequestOf(c: Normalized): Value {
    RequestValue(c.currency, c.unit, c.reference, c.description, c.correlationId, c.metadata, c.reversalOf, c.entries)
  }

  lemma RequestIsValid(c: Normalized)
    requires Valid(c.metadata)
    ensures Valid(RequestOf(c))
  {
    var m := RequestOf(c).members;
    RequestKeysDistinct(c);
    forall i | 0 <= i < |m| ensures Valid(m[i].item) {
      if i == 7 {
        var lines := EntryValues(SortedEntries(c.entries));
        forall k | 0 <= k < |lines| ensures Valid(lines[k]) { EntryIsValid(SortedEntries(c.entries)[k]); }
      }
    }
  }

  lemma EntryIsValid(e: Entry)
    ensures Valid(EntryValue(e))
  {
  }

  lemma RequestKeysDistinct(c: Normalized)
    ensures DistinctKeys(RequestOf(c).members)
  {
    var m := RequestOf(c).members;
    assert |m[0].key| == 8 && |m[1].key| == 14 && |m[2].key| == 9 && |m[3].key| == 11 && |m[4].key| == 13;
    assert |m[5].key| == 8 && |m[6].key| == 19 && |m[7].key| == 5;
    assert m[0].key[0] != m[5].key[0];
  }

  lemma OptionalMeaning(a: Option<string>, b: Option<string>)
    ensures MeaningOf(Ledger, OptionalValue(a)) == MeaningOf(Ledger, OptionalValue(b)) <==> a == b
  {
  }

  lemma RequestMeanings(a: Normalized, b: Normalized)
    ensures MeaningOf(Ledger, RequestOf(a)) == MeaningOf(Ledger, RequestOf(b)) <==> SameRequest(a, b)
  {
    RequestKeysDistinct(a);
    RequestIsFields(a);
    RequestIsFields(b);
    FieldMeanings(RequestOf(a).members, RequestOf(b).members, a, b);
  }

  lemma RequestIsFields(c: Normalized)
    ensures RequestOf(c).Obj? && FieldsOf(RequestOf(c).members, c)
    ensures forall i | 0 <= i < 8 :: RequestOf(c).members[i].key == FIELD_NAMES[i]
  {
  }

  lemma FieldMeanings(s: seq<Keyed<Value>>, t: seq<Keyed<Value>>, a: Normalized, b: Normalized)
    requires FieldsOf(s, a) && FieldsOf(t, b) && DistinctKeys(s)
    requires forall i | 0 <= i < 8 :: s[i].key == t[i].key
    ensures MeaningOf(Ledger, Obj(s)) == MeaningOf(Ledger, Obj(t)) <==> SameRequest(a, b)
  {
    AlignedObjects(Ledger, s, t);
    EightPlaces(Meanings(s), Meanings(t));
    SameMeanings(s, t);
    RequestFields(s, t, a, b);
  }

  lemma SameMeanings(s: seq<Keyed<Value>>, t: seq<Keyed<Value>>)
    requires |s| == |t|
    ensures Meanings(s) == Meanings(t) <==>
      forall i | 0 <= i < |s| :: MeaningOf(Ledger, s[i].item) == MeaningOf(Ledger, t[i].item)
  {
    forall i | 0 <= i < |s|
      ensures Meanings(s)[i] == Meanings(t)[i] <==> MeaningOf(Ledger, s[i].item) == MeaningOf(Ledger, t[i].item) {}
  }

  const FIELD_NAMES := ["currency", "accountingUnit", "reference", "description", "correlationId", "metadata",
                        "reversalOfJournalId", "lines"]

  ghost predicate FieldsOf(s: seq<Keyed<Value>>, c: Normalized) {
    && |s| == 8 && s[0].item == Str(c.currency) && s[1].item == Str(c.unit)
    && s[2].item == OptionalValue(c.reference) && s[3].item == OptionalValue(c.description)
    && s[4].item == OptionalValue(c.correlationId) && s[5].item == c.metadata
    && s[6].item == OptionalValue(c.reversalOf) && s[7].item == Arr(EntryValues(SortedEntries(c.entries)))
  }

  lemma RequestFields(s: seq<Keyed<Value>>, t: seq<Keyed<Value>>, a: Normalized, b: Normalized)
    requires FieldsOf(s, a) && FieldsOf(t, b)
    ensures SameRequest(a, b) <==>
      (&& MeaningOf(Ledger, s[0].item) == MeaningOf(Ledger, t[0].item)
       && MeaningOf(Ledger, s[1].item) == MeaningOf(Ledger, t[1].item)
       && MeaningOf(Ledger, s[2].item) == MeaningOf(Ledger, t[2].item)
       && MeaningOf(Ledger, s[3].item) == MeaningOf(Ledger, t[3].item)
       && MeaningOf(Ledger, s[4].item) == MeaningOf(Ledger, t[4].item)
       && MeaningOf(Ledger, s[5].item) == MeaningOf(Ledger, t[5].item)
       && MeaningOf(Ledger, s[6].item) == MeaningOf(Ledger, t[6].item)
       && MeaningOf(Ledger, s[7].item) == MeaningOf(Ledger, t[7].item))
  {
    TextMeaning(Ledger, a.currency, b.currency);
    TextMeaning(Ledger, a.unit, b.unit);
    OptionalMeaning(a.reference, b.reference);
    OptionalMeaning(a.description, b.description);
    OptionalMeaning(a.correlationId, b.correlationId);
    OptionalMeaning(a.reversalOf, b.reversalOf);
    EntryListMeaning(SortedEntries(a.entries), SortedEntries(b.entries));
    SortedEntriesForgetOrder(a.entries, b.entries);
  }

  ghost function Meanings(s: seq<Keyed<Value>>): seq<Meaning> {
    seq(|s|, i requires 0 <= i < |s| => MeaningOf(Ledger, s[i].item))
  }

  lemma EightPlaces(m: seq<Meaning>, n: seq<Meaning>)
    requires |m| == |n| == 8
    ensures m == n <==> (&& m[0] == n[0] && m[1] == n[1] && m[2] == n[2] && m[3] == n[3]
                         && m[4] == n[4] && m[5] == n[5] && m[6] == n[6] && m[7] == n[7])
  {
  }

  /**
   Equal fingerprints mean equal requests, and reordering lines or metadata members never changes the fingerprint.
   */
  lemma FingerprintIdentifiesRequest(a: Normalized, b: Normalized)
    ensures Hashed(a) && Hashed(b) ==> (a.requestHash == b.requestHash <==> SameRequest(a, b))
  {
    if Hashed(a) && Hashed(b) {
      RequestIsValid(a);
      RequestIsValid(b);
      CanonicalTextIsMeaning(Ledger, RequestOf(a), RequestOf(b));
      RequestMeanings(a, b);
    }
  }

  /** Two commands with the same fingerprint have the same effect on every account. */
  lemma SameFingerprintSameEffect(a: Normalized, b: Normalized, id: string, normal: Direction)
    requires Hashed(a) && Hashed(b) && a.requestHash == b.requestHash
    ensures EntryEffect(a.entries, id, normal) == EntryEffect(b.entries, id, normal)
    ensures |a.entries| == |b.entries|
  {
    FingerprintIdentifiesRequest(a, b);
    EffectOfMultiset(a.entries, b.entries, id, normal);
    assert |multiset(a.entries)| == |multiset(b.entries)|;
  }
}
