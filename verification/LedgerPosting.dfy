/** What one posting transaction does to the tables. */
module LedgerPosting {
  import opened Prelude
  import opened Order
  import opened LedgerTables
  import opened LedgerCommands

  datatype Constraint = PrimaryKey | IdempotencyKey | ReversalOf | AccountCode

  /** How a transaction body ends.  A rejection is a business exception; a violation is raised by the database. */
  datatype Outcome =
    | Existing(id: string)
    | Written(id: string)
    | Rejected(error: Error)
    | Violation(broken: Constraint)

  // -------------------------------------------------------------------------------------- accounts to be locked

  function DistinctIds(ids: seq<string>): seq<string> {
    if ids == [] then []
    else
      var front := DistinctIds(ids[..|ids| - 1]);
      if ids[|ids| - 1] in front then front else front + [ids[|ids| - 1]]
  }

  function IdentityKey(id: string): string {
    id
  }

  function SortedIds(ids: seq<string>): seq<string> {
    var sorted := Sort(FileBy(ids, IdentityKey));
    seq(|sorted|, i requires 0 <= i < |sorted| => sorted[i].item)
  }

  /** `[...new Set(ids)].sort()`: the order in which account rows are locked and checked. */
  function LockOrder(entries: seq<Entry>): seq<string> {
    SortedIds(DistinctIds(seq(|entries|, i requires 0 <= i < |entries| => entries[i].accountId)))
  }

  function AccountProblem(accounts: seq<Account>, id: string, currency: string, unit: string): Option<Error> {
    var found := FindAccount(accounts, id);
    if found.None? then Some(NotFound)
    else if !found.value.isActive then Some(Conflict)
    else if found.value.currency != currency || found.value.unit != unit then Some(Conflict)
    else None
  }

  /** The first problem met in lock order. */
  function AccountProblems(accounts: seq<Account>, ids: seq<string>, currency: string, unit: string): Option<Error> {
    if ids == [] then None
    else
      var front := AccountProblems(accounts, ids[..|ids| - 1], currency, unit);
      if front.Some? then front else AccountProblem(accounts, ids[|ids| - 1], currency, unit)
  }

  // ----------------------------------------------------------------------------------------------------- posting

  function LinesFor(c: Normalized, journalId: string): seq<Line> {
    seq(|c.entries|, i requires 0 <= i < |c.entries| =>
      Line(journalId, c.entries[i].accountId, i + 1, c.entries[i].direction, c.entries[i].amount, c.currency, c.unit))
  }

  function JournalFor(c: Normalized, id: string): Journal {
    Journal(id, c.key, c.requestHash, c.currency, c.unit, c.reference, c.description, c.correlationId,
      c.reversalOf, c.metadata, c.total)
  }

  /** The balance of an account once the command's lines are added. */
  function Projected(t: Tables, c: Normalized, account: Account): int {
    Balance(t.lines, account) + Sum(LinesFor(c, ""), OnAccount(account.id, account.normalBalance))
  }

  /** Some locked account would go below zero without being allowed to. */
  predicate Overdraws(t: Tables, c: Normalized, ids: seq<string>) {
    exists i :: 0 <= i < |ids| && FindAccount(t.accounts, ids[i]).Some?
      && !FindAccount(t.accounts, ids[i]).value.allowNegative
      && Projected(t, c, FindAccount(t.accounts, ids[i]).value) < 0
  }

  function ReversalProblem(t: Tables, c: Normalized): Option<Error> {
    if c.reversalOf.None? then None
    else
      var original := FindJournal(t.journals, c.reversalOf.value);
      if original.None? then Some(NotFound)
      else if original.value.reversalOf.Some? then Some(Conflict)
      else None
  }

  /** How `postWithinTransaction` ends on these tables, with `newId` the journal id it draws. */
  function PostOutcome(t: Tables, c: Normalized, newId: string): Outcome {
    var existing := FindKey(t.journals, c.key);
    if existing.Some? then
      if existing.value.requestHash != c.requestHash then Rejected(Conflict) else Existing(existing.value.id)
    else
      var ids := LockOrder(c.entries);
      var problem := AccountProblems(t.accounts, ids, c.currency, c.unit);
      if problem.Some? then Rejected(problem.value)
      else if Overdraws(t, c, ids) then Rejected(Unprocessable)
      else if ReversalProblem(t, c).Some? then Rejected(ReversalProblem(t, c).value)
      else if FindJournal(t.journals, newId).Some? then Violation(PrimaryKey)
      else if c.reversalOf.Some? && IsReversed(t.journals, c.reversalOf.value) then Violation(ReversalOf)
      else Written(newId)
  }

  function WriteJournal(t: Tables, c: Normalized, newId: string): Tables {
    Tables(t.accounts, t.journals + [JournalFor(c, newId)], t.lines + LinesFor(c, newId))
  }

  function PostEffect(t: Tables, c: Normalized, newId: string): Tables {
    if PostOutcome(t, c, newId).Written? then WriteJournal(t, c, newId) else t
  }
}
