/** Reversals: how `reverseJournal` builds its command, and why balances only see journals still standing. */
module Reversal {
  import opened Prelude
  import opened JsText
  import opened Order
  import opened Json
  import opened Money
  import opened LedgerTables
  import opened LedgerCommands
  import opened LedgerPosting
  import opened LedgerInvariant
  import opened LedgerIdentity
  import opened Fingerprint

  // ------------------------------------------------------------------------------------------- reverseJournal

  datatype Plan = AlreadyReversedByKey(id: string) | Refuse(error: Error) | Send(command: Command)

  /** Object spread followed by one more member: an existing key is overwritten where it stands. */
  function SetMember(members: seq<Keyed<Value>>, key: string, value: Value): seq<Keyed<Value>> {
    if members == [] then [Keyed(key, value)]
    else if members[0].key == key then [Keyed(key, value)] + members[1..]
    else [members[0]] + SetMember(members[1..], key, value)
  }

  function MembersOf(metadata: Value): seq<Keyed<Value>> {
    if metadata.Obj? then metadata.members else []
  }

  function Flip(e: Entry): Entry {
    Entry(e.accountId, Opposite(e.direction), e.amount)
  }

  function FlipAll(entries: seq<Entry>): seq<Entry> {
    seq(|entries|, i requires 0 <= i < |entries| => Flip(entries[i]))
  }

  /** The lines sent for a reversal: the rows of the original with their directions turned. */
  function ReversalLines(entries: seq<Entry>): seq<CommandLine> {
    seq(|entries|, i requires 0 <= i < |entries| =>
      CommandLine(entries[i].accountId, Some(Opposite(entries[i].direction)), Decimal(AmountText(entries[i].amount))))
  }

  function TrimmedReason(reason: Option<string>): string {
    if reason.Some? then Trim(reason.value) else ""
  }

  function ReasonValue(reason: Option<string>): Value {
    if TrimmedReason(reason) != "" then Str(TrimmedReason(reason)) else Undefined
  }

  function ReversalMetadata(metadata: Value, id: string, reason: Option<string>): Value {
    Obj(SetMember(SetMember(MembersOf(metadata), "reversalOfJournalId", Str(id)), "reversalReason", ReasonValue(reason)))
  }

  function ReversalCommand(t: Tables, original: Journal, key: string, reason: Option<string>): Command {
    var description := if TrimmedReason(reason) != "" then TrimmedReason(reason) else "Reversal of journal " + original.id;
    Command(key, original.currency, Some(original.unit), original.reference, Some(description), original.correlationId,
      ReversalMetadata(original.metadata, original.id, reason), Some(original.id),
      ReversalLines(EntriesIn(t.lines, original.id)))
  }

  /** What `reverseJournal` reads before it posts. */
  function PlanReversal(t: Tables, journalId: string, key: string, reason: Option<string>): Plan {
    if !IsUuid(journalId) then Refuse(BadRequest)
    else
      var original := FindJournal(t.journals, journalId);
      if original.None? then Refuse(NotFound)
      else
        var existing := FindKey(t.journals, Trim(key));
        if existing.Some? then
          if existing.value.reversalOf == Some(journalId) then AlreadyReversedByKey(existing.value.id)
          else Refuse(Conflict)
        else if original.value.reversalOf.Some? then Refuse(Conflict)
        else if IsReversed(t.journals, journalId) then Refuse(Conflict)
        else Send(ReversalCommand(t, original.value, Trim(key), reason))
  }

  /** Parsing the lines that were sent gives back the flipped entries. */
  lemma {:induction false} ReversalLinesParse(entries: seq<Entry>)
    requires EntriesOf(ReversalLines(entries)).Success?
    ensures EntriesOf(ReversalLines(entries)).value == FlipAll(entries)
  {
    var lines := ReversalLines(entries);
    EntriesFollowLines(lines);
    forall i | 0 <= i < |entries| ensures EntriesOf(lines).value[i] == Flip(entries[i]) {
      assert NormalizeLine(lines[i]) == Success(EntriesOf(lines).value[i]);
      AmountTextParses(entries[i].amount);
    }
    assert |EntriesOf(lines).value| == |entries|;
  }

  lemma AmountTextParses(n: int)
    ensures ParsePositiveMinorUnits(Decimal(AmountText(n))) ==
      if 0 < n <= MAX_BIGINT then Success(n) else Failure(BadRequest)
  {
    if n >= 0 {
      FromToDecimal(n);
    } else {
      assert AmountText(n)[0] in AmountText(n);
    }
  }

  lemma SentIsReversal(t: Tables, journalId: string, key: string, reason: Option<string>)
    requires PlanReversal(t, journalId, key, reason).Send?
    ensures var command := PlanReversal(t, journalId, key, reason).command;
      && FindJournal(t.journals, journalId).Some? && command.reversalOf == Some(journalId)
      && command.lines == ReversalLines(EntriesIn(t.lines, journalId))
  {
  }

  /** A normalised reversal carries exactly the flipped entries of the journal it names. */
  lemma ReversalIsFlipped(t: Tables, journalId: string, key: string, reason: Option<string>)
    requires PlanReversal(t, journalId, key, reason).Send?
    requires Normalize(PlanReversal(t, journalId, key, reason).command).Success?
    ensures FindJournal(t.journals, journalId).Some?
    ensures var c := Normalize(PlanReversal(t, journalId, key, reason).command).value;
      c.reversalOf == Some(journalId) && c.entries == FlipAll(EntriesIn(t.lines, journalId))
  {
    SentIsReversal(t, journalId, key, reason);
    NormalizedFacts(PlanReversal(t, journalId, key, reason).command);
    ReversalLinesParse(EntriesIn(t.lines, journalId));
  }

  lemma {:induction false} FlippedEffect(entries: seq<Entry>, id: string, normal: Direction)
    ensures EntryEffect(FlipAll(entries), id, normal) == -EntryEffect(entries, id, normal)
  {
    if entries != [] {
      var front := entries[..|entries| - 1];
      FlippedEffect(front, id, normal);
      assert FlipAll(entries)[..|entries| - 1] == FlipAll(front);
    }
  }

  // ---------------------------------------------------------------------------------- journals still standing

  /** Every reversal mirrors the journal it names. */
  ghost predicate Mirrored(t: Tables) {
    forall j | j in t.journals && j.reversalOf.Some? ::
      EntriesIn(t.lines, j.id) == FlipAll(EntriesIn(t.lines, j.reversalOf.value))
  }

  /** Neither a reversal nor reversed, as far as `all` tells. */
  predicate Standing(all: seq<Journal>, j: Journal) {
    j.reversalOf.None? && !IsReversed(all, j.id)
  }

  function StandingEffect(t: Tables, journals: seq<Journal>, all: seq<Journal>, account: Account): int {
    if journals == [] then 0
    else
      var j := journals[|journals| - 1];
      StandingEffect(t, journals[..|journals| - 1], all, account)
      + (if Standing(all, j) then JournalEffect(t, j.id, account) else 0)
  }

  lemma {:induction false} EffectSumAppend(t: Tables, a: seq<Journal>, j: Journal, account: Account)
    ensures EffectSum(t, a + [j], account) == EffectSum(t, a, account) + JournalEffect(t, j.id, account)
  {
    if a == [] {
      assert a + [j] == [j] && [j][1..] == [];
    } else {
      assert (a + [j])[1..] == a[1..] + [j];
      EffectSumAppend(t, a[1..], j, account);
    }
  }

  lemma ReversedBy(all: seq<Journal>, r: Journal, id: string)
    ensures IsReversed(all + [r], id) <==> IsReversed(all, id) || r.reversalOf == Some(id)
  {
    var more := all + [r];
    if IsReversed(all, id) {
      var i :| 0 <= i < |all| && all[i].reversalOf == Some(id);
      assert more[i].reversalOf == Some(id);
    }
    if r.reversalOf == Some(id) { assert more[|all|].reversalOf == Some(id); }
  }

  /** One more journal `r` takes the journal it names, if any, out of the standing ones. */
  lemma {:induction false} OneMoreReversal(t: Tables, journals: seq<Journal>, all: seq<Journal>, r: Journal,
    account: Account)
    requires DistinctJournals(journals)
    ensures StandingEffect(t, journals, all + [r], account) == StandingEffect(t, journals, all, account)
      - (if r.reversalOf.Some? && FindJournal(journals, r.reversalOf.value).Some?
            && Standing(all, FindJournal(journals, r.reversalOf.value).value)
         then JournalEffect(t, r.reversalOf.value, account) else 0)
  {
    if journals != [] {
      var front, j := journals[..|journals| - 1], journals[|journals| - 1];
      assert journals == front + [j];
      OneMoreReversal(t, front, all, r, account);
      ReversedBy(all, r, j.id);
      if r.reversalOf.Some? {
        FindJournalAppend(front, j, r.reversalOf.value);
        if FindJournal(front, r.reversalOf.value).Some? {
          var found := FindJournal(front, r.reversalOf.value).value;
          var k :| 0 <= k < |front| && front[k] == found;
          assert journals[k] == found && journals[|journals| - 1] == j;
        }
      }
    }
  }

  /** The journals written up to some point of the run. */
  lemma {:induction false} PrefixBalances(t: Tables, n: nat, account: Account)
    requires Consistent(t) && Mirrored(t) && n <= |t.journals|
    ensures EffectSum(t, t.journals[..n], account) ==
      StandingEffect(t, t.journals[..n], t.journals[..n], account)
  {
    if n > 0 {
      var front, r := t.journals[..n - 1], t.journals[n - 1];
      assert t.journals[..n] == front + [r];
      assert r in t.journals;
      PrefixBalances(t, n - 1, account);
      EffectSumAppend(t, front, r, account);
      OneMoreReversal(t, front, front, r, account);
      assert StandingEffect(t, front + [r], front + [r], account) ==
        StandingEffect(t, front, front + [r], account)
        + (if Standing(front + [r], r) then JournalEffect(t, r.id, account) else 0);
      NewestIsNotReversed(t, n - 1);
      if r.reversalOf.Some? {
        NamedJournalStands(t.journals, n - 1);
        FlippedEffect(EntriesIn(t.lines, r.reversalOf.value), account.id, account.normalBalance);
      }
    }
  }

  lemma NewestIsNotReversed(t: Tables, n: nat)
    requires Consistent(t) && n < |t.journals|
    ensures !IsReversed(t.journals[..n] + [t.journals[n]], t.journals[n].id)
  {
    var js := t.journals;
    var more := js[..n] + [js[n]];
    forall i | 0 <= i < |more| ensures more[i].reversalOf != Some(js[n].id) {
      assert more[i] == js[i];
      if js[i].reversalOf.Some? {
        var k :| 0 <= k < i && js[k].id == js[i].reversalOf.value && js[k].reversalOf.None?;
        assert js[k].id != js[n].id;
      }
    }
  }

  lemma NamedJournalStands(js: seq<Journal>, n: nat)
    requires DistinctJournals(js) && ReversalsInOrder(js) && n < |js| && js[n].reversalOf.Some?
    ensures FindJournal(js[..n], js[n].reversalOf.value).Some?
    ensures Standing(js[..n], FindJournal(js[..n], js[n].reversalOf.value).value)
  {
    var k :| 0 <= k < n && js[k].id == js[n].reversalOf.value && js[k].reversalOf.None?;
    FoundBefore(js, n, k);
    forall i | 0 <= i < n ensures js[..n][i].reversalOf != Some(js[k].id) {
      assert js[..n][i] == js[i];
    }
  }

  lemma FoundBefore(js: seq<Journal>, n: nat, k: nat)
    requires DistinctJournals(js) && k < n <= |js|
    ensures FindJournal(js[..n], js[k].id) == Some(js[k])
  {
    assert js[..n][k] == js[k];
    var found := FindJournal(js[..n], js[k].id).value;
    var m :| 0 <= m < n && js[..n][m] == found;
    assert js[m].id == js[k].id;
  }

  /** A balance is the sum of the effects of the journals that are neither reversals nor reversed. */
  lemma ReversalsCancel(t: Tables, account: Account)
    requires Consistent(t) && Mirrored(t)
    ensures Balance(t.lines, account) == StandingEffect(t, t.journals, t.journals, account)
  {
    BalanceByJournal(t, account);
    PrefixBalances(t, |t.journals|, account);
    assert t.journals[..|t.journals|] == t.journals;
  }

  /** The command names an existing journal and carries its flipped entries. */
  ghost predicate Flips(t: Tables, c: Normalized) {
    c.reversalOf.Some? && FindJournal(t.journals, c.reversalOf.value).Some?
    && c.entries == FlipAll(EntriesIn(t.lines, c.reversalOf.value))
  }

  /** Writing a plain journal, or a reversal with the flipped entries, keeps the mirror. */
  lemma WriteKeepsMirror(t: Tables, c: Normalized, newId: string)
    requires Consistent(t) && Mirrored(t) && FindJournal(t.journals, newId).None?
    requires c.reversalOf.Some? ==> Flips(t, c)
    ensures Mirrored(WriteJournal(t, c, newId))
  {
    var after := WriteJournal(t, c, newId);
    forall j | j in after.journals && j.reversalOf.Some?
      ensures EntriesIn(after.lines, j.id) == FlipAll(EntriesIn(after.lines, j.reversalOf.value))
    {
      WriteKeepsEntries(t, c, newId, j.id);
      WriteKeepsEntries(t, c, newId, j.reversalOf.value);
      if j in t.journals {
        var i :| 0 <= i < |t.journals| && t.journals[i] == j;
        var k :| 0 <= k < i && t.journals[k].id == j.reversalOf.value && t.journals[k].reversalOf.None?;
        assert t.journals[k].id != newId && t.journals[i].id != newId;
      }
    }
  }
}
