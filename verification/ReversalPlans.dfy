/** When a reversal is sent, when its key answers an earlier one, and what it carries, in terms of the rows. */
module ReversalPlans {
  import opened Prelude
  import opened JsText
  import opened Order
  import opened Json
  import opened Money
  import opened LedgerTables
  import opened LedgerCommands
  import opened LedgerPosting
  import opened LedgerInvariant
  import opened LedgerOutcome
  import opened LedgerRequests
  import opened Reversal
  import LedgerClients

  ghost predicate Stored(t: Tables, j: Journal, id: string) {
    j in t.journals && j.id == id
  }

  ghost predicate Reverses(t: Tables, j: Journal, id: string) {
    j in t.journals && j.reversalOf == Some(id)
  }

  ghost predicate HasKey(t: Tables, j: Journal, key: string) {
    j in t.journals && j.key == key
  }

  /**
   What a request to reverse a journal comes to.  It is sent if and only if the journal exists, is no reversal and has
   none, and the key is new; a key that reversed this very journal answers that reversal; any other use is a conflict.
   */
  lemma PlanExactly(t: Tables, journalId: string, key: string, reason: Option<string>)
    requires Consistent(t) && IsUuid(journalId)
    ensures var plan, k := PlanReversal(t, journalId, key, reason), Trim(key);
      && ((forall o :: !Stored(t, o, journalId)) ==> plan == Refuse(NotFound))
      && (forall o | Stored(t, o, journalId) ::
           && (plan.Send? <==> o.reversalOf.None? && (forall j :: !Reverses(t, j, journalId)) && forall j :: !HasKey(t, j, k))
           && (forall j | HasKey(t, j, k) ::
                plan == if Reverses(t, j, journalId) then AlreadyReversedByKey(j.id) else Refuse(Conflict))
           && ((forall j :: !HasKey(t, j, k)) && !plan.Send? ==> plan == Refuse(Conflict)))
  {
    var k := Trim(key);
    forall o | Stored(t, o, journalId) ensures FindJournal(t.journals, journalId) == Some(o) { JournalIsFound(t.journals, o); }
    forall j | HasKey(t, j, k) ensures FindKey(t.journals, k) == Some(j) { JournalIsFound(t.journals, j); }
    ReversedIsNamed(t, journalId);
    var found, taken := FindJournal(t.journals, journalId), FindKey(t.journals, k);
    if found.Some? { assert Stored(t, found.value, journalId); }
    if taken.Some? { assert HasKey(t, taken.value, k); }
    if IsReversed(t.journals, journalId) {
      var j :| j in t.journals && j.reversalOf == Some(journalId);
      assert Reverses(t, j, journalId);
    }
  }

  lemma TrimTwice(s: string)
    ensures Trim(Trim(s)) == Trim(s)
  {
    TrimExactly(s, Trim(s));
    var r := Trim(s);
    assert AllSpace("") && r == "" + r + "";
    TrimExactly(r, r);
  }

  /**
   Once a reversal is written: asking for it again under its key answers it, under a new key it is a conflict, and it
   cannot be reversed itself.
   */
  lemma ReversedOnce(t: Tables, journalId: string, key: string, reason: Option<string>, newId: string,
    otherKey: string, otherReason: Option<string>)
    requires Consistent(t) && IsUuid(newId) && PlanReversal(t, journalId, key, reason).Send?
    requires Normalize(PlanReversal(t, journalId, key, reason).command).Success?
    requires var c := Normalize(PlanReversal(t, journalId, key, reason).command).value;
      PostOutcome(t, c, newId) == Written(newId)
    ensures var c := Normalize(PlanReversal(t, journalId, key, reason).command).value;
      var u := PostEffect(t, c, newId);
      && PlanReversal(u, journalId, key, otherReason) == AlreadyReversedByKey(newId)
      && ((forall j :: !HasKey(u, j, Trim(otherKey))) ==>
            && PlanReversal(u, journalId, otherKey, otherReason) == Refuse(Conflict)
            && PlanReversal(u, newId, otherKey, otherReason) == Refuse(Conflict))
  {
    var command := PlanReversal(t, journalId, key, reason).command;
    var c := Normalize(command).value;
    SentNames(t, journalId, key, reason);
    NormalizedFacts(command);
    NormalizedIsWellPosed(command);
    TrimTwice(key);
    PostKeepsConsistent(t, c, newId);
    WrittenStands(t, c, newId);
    StandsReversed(PostEffect(t, c, newId), JournalFor(c, newId), FindJournal(t.journals, journalId).value, key, otherKey,
      otherReason);
  }

  /** Where a reversal `j` of `o` stands under a key. */
  lemma StandsReversed(u: Tables, j: Journal, o: Journal, key: string, otherKey: string, reason: Option<string>)
    requires Consistent(u) && IsUuid(j.id) && IsUuid(o.id)
    requires j in u.journals && o in u.journals && j.reversalOf == Some(o.id) && j.key == Trim(key)
    ensures PlanReversal(u, o.id, key, reason) == AlreadyReversedByKey(j.id)
    ensures (forall x :: !HasKey(u, x, Trim(otherKey))) ==>
      && PlanReversal(u, o.id, otherKey, reason) == Refuse(Conflict)
      && PlanReversal(u, j.id, otherKey, reason) == Refuse(Conflict)
  {
    assert Reverses(u, j, o.id) && HasKey(u, j, Trim(key)) && Stored(u, j, j.id) && Stored(u, o, o.id);
    PlanExactly(u, o.id, key, reason);
    PlanExactly(u, o.id, otherKey, reason);
    PlanExactly(u, j.id, otherKey, reason);
  }

  lemma WrittenStands(t: Tables, c: Normalized, newId: string)
    requires PostOutcome(t, c, newId).Written?
    ensures PostEffect(t, c, newId).journals == t.journals + [JournalFor(c, newId)]
    ensures forall j | j in t.journals :: j in PostEffect(t, c, newId).journals
    ensures JournalFor(c, newId) in PostEffect(t, c, newId).journals
  {
  }

  lemma SentNames(t: Tables, journalId: string, key: string, reason: Option<string>)
    requires PlanReversal(t, journalId, key, reason).Send?
    ensures var command := PlanReversal(t, journalId, key, reason).command;
      && IsUuid(journalId) && FindJournal(t.journals, journalId).Some?
      && command == ReversalCommand(t, FindJournal(t.journals, journalId).value, Trim(key), reason)
      && command.key == Trim(key) && command.reversalOf == Some(journalId)
  {
  }

  // ------------------------------------------------------------------------------------------------ what is carried

  /** What an object holds under a key. */
  function Held(members: seq<Keyed<Value>>, key: string): Option<Value> {
    if members == [] then None
    else if members[0].key == key then Some(members[0].item) else Held(members[1..], key)
  }

  lemma {:induction false} SetMemberHolds(members: seq<Keyed<Value>>, key: string, value: Value, other: string)
    ensures Held(SetMember(members, key, value), other) == if other == key then Some(value) else Held(members, other)
  {
    if members == [] {
      assert [Keyed(key, value)][1..] == [];
    } else if members[0].key == key {
      assert ([Keyed(key, value)] + members[1..])[1..] == members[1..];
    } else {
      SetMemberHolds(members[1..], key, value, other);
      assert SetMember(members, key, value)[1..] == SetMember(members[1..], key, value);
    }
  }

  ghost predicate CarriesMember(original: Value, sent: Value, id: string, reason: Option<string>, key: string) {
    Held(MembersOf(sent), key) ==
      if key == "reversalReason" then Some(if TrimmedReason(reason) == "" then Undefined else Str(TrimmedReason(reason)))
      else if key == "reversalOfJournalId" then Some(Str(id))
      else Held(MembersOf(original), key)
  }

  /** A sent reversal is in the original's book and under its references, names it, and keeps its other metadata. */
  lemma ReversalCarries(t: Tables, journalId: string, key: string, reason: Option<string>)
    requires PlanReversal(t, journalId, key, reason).Send?
    ensures var command := PlanReversal(t, journalId, key, reason).command;
      exists o :: Stored(t, o, journalId)
        && command.currency == o.currency && command.unit == Some(o.unit) && command.reference == o.reference
        && command.correlationId == o.correlationId && command.reversalOf == Some(journalId)
        && command.description == Some(if TrimmedReason(reason) == "" then "Reversal of journal " + journalId
                                       else TrimmedReason(reason))
        && command.metadata.Obj?
        && forall name :: CarriesMember(o.metadata, command.metadata, journalId, reason, name)
  {
    SentNames(t, journalId, key, reason);
    var o := FindJournal(t.journals, journalId).value;
    var sent := ReversalMetadata(o.metadata, o.id, reason);
    forall name ensures CarriesMember(o.metadata, sent, journalId, reason, name) {
      var named := SetMember(MembersOf(o.metadata), "reversalOfJournalId", Str(o.id));
      SetMemberHolds(MembersOf(o.metadata), "reversalOfJournalId", Str(o.id), name);
      SetMemberHolds(named, "reversalReason", ReasonValue(reason), name);
    }
    assert Stored(t, o, journalId);
  }
}
