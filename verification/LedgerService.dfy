/** `LedgerService` over its tables: the loops of the source, proved against the functions of LedgerPosting. */
module LedgerService {
  import opened Prelude
  import opened JsText
  import opened Order
  import opened LedgerTables
  import opened LedgerCommands
  import opened LedgerPosting

  datatype AccountCommand = AccountCommand(code: string, name: string, accountType: AccountType,
    normalBalance: Option<Direction>, currency: string, unit: Option<string>, allowNegative: bool)

  predicate IsCode(code: string) {
    2 <= |code| <= 100 && IsCodeStart(code[0]) &&
    forall c | c in code[1..] :: IsCodeStart(c) || c == '_' || c == '.' || c == ':' || c == '-'
  }

  predicate IsCodeStart(c: char) {
    'A' <= c <= 'Z' || 'a' <= c <= 'z' || '0' <= c <= '9'
  }

  function NewAccount(command: AccountCommand, newId: string): Result<Account, Error> {
    var expected := NormalBalanceFor(command.accountType);
    var normal := if command.normalBalance.Some? then command.normalBalance.value else expected;
    if normal != expected then Failure(BadRequest)
    else
      var currency :- NormalizeCurrency(command.currency);
      var unit :- NormalizeAccountingUnit(if command.unit.Some? then command.unit.value else DEFAULT_UNIT);
      if !IsCode(Trim(command.code)) || Length(Trim(command.name)) < 2 || Length(Trim(command.name)) > 160
      then Failure(BadRequest)
      else Success(Account(newId, Trim(command.code), Trim(command.name), command.accountType, normal, currency, unit,
                           command.allowNegative, true))
  }

  function CreateOutcome(t: Tables, command: AccountCommand, newId: string): Result<Account, Error> {
    var account :- NewAccount(command, newId);
    if exists i :: 0 <= i < |t.accounts| && t.accounts[i].code == account.code then Failure(Conflict)
    else if FindAccount(t.accounts, newId).Some? then Failure(Conflict)
    else Success(account)
  }

  function CreateEffect(t: Tables, command: AccountCommand, newId: string): Tables {
    var r := CreateOutcome(t, command, newId);
    if r.Success? then t.(accounts := t.accounts + [r.value]) else t
  }

  ghost predicate Ascending(ids: seq<string>) {
    forall i, j | 0 <= i < j < |ids| :: Less(ids[i], ids[j])
  }

  function IdsOf(accounts: seq<Account>): seq<string> {
    seq(|accounts|, i requires 0 <= i < |accounts| => accounts[i].id)
  }

  class LedgerStore {
    var accounts: seq<Account>
    var journals: seq<Journal>
    var lines: seq<Line>

    constructor ()
      ensures Contents() == EMPTY
    {
      accounts, journals, lines := [], [], [];
    }

    function Contents(): Tables
      reads this
    {
      Tables(accounts, journals, lines)
    }

    method CreateAccount(command: AccountCommand, newId: string) returns (r: Result<Account, Error>)
      modifies this
      ensures r == CreateOutcome(old(Contents()), command, newId)
      ensures Contents() == CreateEffect(old(Contents()), command, newId)
    {
      var account :- NewAccount(command, newId);
      if exists i :: 0 <= i < |accounts| && accounts[i].code == account.code {
        return Failure(Conflict);
      }
      if FindAccount(accounts, newId).Some? {
        return Failure(Conflict);
      }
      accounts := accounts + [account];
      r := Success(account);
    }

    /** The accounts of the given ids, in the order of the ids. */
    method LockAccounts(ids: seq<string>) returns (locked: seq<Account>)
      ensures forall i | 0 <= i < |locked| ::
        locked[i].id in ids && FindAccount(accounts, locked[i].id) == Some(locked[i])
      ensures forall id | id in ids && FindAccount(accounts, id).Some? :: FindAccount(accounts, id).value in locked
      ensures Ascending(ids) ==> Ascending(IdsOf(locked))
    {
      locked := [];
      for i := 0 to |ids|
        invariant forall k | 0 <= k < |locked| ::
          locked[k].id in ids && FindAccount(accounts, locked[k].id) == Some(locked[k])
        invariant forall k | 0 <= k < i && FindAccount(accounts, ids[k]).Some? ::
          FindAccount(accounts, ids[k]).value in locked
        invariant forall k | 0 <= k < |locked| :: locked[k].id in ids[..i]
        invariant Ascending(ids) ==> Ascending(IdsOf(locked))
      {
        var found := FindAccount(accounts, ids[i]);
        assert ids[..i + 1] == ids[..i] + [ids[i]];
        if found.Some? {
          assert IdsOf(locked + [found.value]) == IdsOf(locked) + [ids[i]];
          locked := locked + [found.value];
        }
      }
    }

    method CheckAccounts(ids: seq<string>, currency: string, unit: string) returns (problem: Option<Error>)
      ensures problem == AccountProblems(accounts, ids, currency, unit)
    {
      for i := 0 to |ids|
        invariant AccountProblems(accounts, ids[..i], currency, unit) == None
      {
        assert ids[..i + 1][..i] == ids[..i];
        problem := AccountProblem(accounts, ids[i], currency, unit);
        if problem.Some? {
          ProblemSpreads(accounts, ids, i + 1, currency, unit);
          return;
        }
      }
      assert ids[..|ids|] == ids;
      problem := None;
    }

    /** One pass over the lines, adding each to the running balance of its account. */
    method CalculateBalances(locked: seq<Account>) returns (balances: map<string, int>)
      requires forall i | 0 <= i < |locked| :: FindAccount(accounts, locked[i].id) == Some(locked[i])
      ensures forall a | a in locked :: a.id in balances && balances[a.id] == Balance(lines, a)
    {
      balances := map i | 0 <= i < |locked| :: locked[i].id := 0;
      for k := 0 to |lines|
        invariant forall a | a in locked :: a.id in balances && balances[a.id] == Balance(lines[..k], a)
      {
        balances := AddLine(locked, balances, lines[k]);
        assert lines[..k + 1][..k] == lines[..k];
      }
      assert lines[..|lines|] == lines;
    }

    /** The balances once the command's lines are added, again line by line. */
    method ProjectBalances(c: Normalized, locked: seq<Account>, current: map<string, int>)
      returns (projected: map<string, int>)
      requires forall i | 0 <= i < |locked| :: FindAccount(accounts, locked[i].id) == Some(locked[i])
      requires forall a | a in locked :: a.id in current && current[a.id] == Balance(lines, a)
      ensures forall a | a in locked :: a.id in projected && projected[a.id] == Projected(Contents(), c, a)
    {
      projected := current;
      var added := LinesFor(c, "");
      for k := 0 to |added|
        invariant forall a | a in locked :: a.id in projected
        invariant forall a | a in locked ::
          projected[a.id] == Balance(lines, a) + Sum(added[..k], OnAccount(a.id, a.normalBalance))
      {
        projected := AddLine(locked, projected, added[k]);
        assert added[..k + 1][..k] == added[..k];
      }
      assert added[..|added|] == added;
    }

    method AddLine(locked: seq<Account>, balances: map<string, int>, line: Line) returns (r: map<string, int>)
      requires forall i | 0 <= i < |locked| :: FindAccount(accounts, locked[i].id) == Some(locked[i])
      requires forall a | a in locked :: a.id in balances
      ensures forall a | a in locked :: a.id in r && r[a.id] == balances[a.id] + OnAccount(a.id, a.normalBalance)(line)
    {
      r := balances;
      var found := FindAccount(locked, line.accountId);
      if found.Some? {
        var account := found.value;
        var signed := if line.direction == account.normalBalance then line.amount else -line.amount;
        r := balances[account.id := balances[account.id] + signed];
      }
    }

    method CheckOverdraft(c: Normalized, ids: seq<string>, locked: seq<Account>, projected: map<string, int>)
      returns (short: bool)
      requires forall i | 0 <= i < |locked| ::
        locked[i].id in ids && FindAccount(accounts, locked[i].id) == Some(locked[i])
      requires forall id | id in ids && FindAccount(accounts, id).Some? :: FindAccount(accounts, id).value in locked
      requires forall a | a in locked :: a.id in projected && projected[a.id] == Projected(Contents(), c, a)
      ensures short == Overdraws(Contents(), c, ids)
    {
      for i := 0 to |locked|
        invariant forall k | 0 <= k < i :: locked[k].allowNegative || Projected(Contents(), c, locked[k]) >= 0
      {
        if !locked[i].allowNegative && projected[locked[i].id] < 0 {
          return true;
        }
      }
      short := false;
    }

    method PostWithinTransaction(c: Normalized, newId: string) returns (outcome: Outcome)
      modifies this
      ensures outcome == PostOutcome(old(Contents()), c, newId)
      ensures Contents() == PostEffect(old(Contents()), c, newId)
    {
      var existing := FindKey(journals, c.key);
      if existing.Some? {
        if existing.value.requestHash != c.requestHash {
          return Rejected(Conflict);
        }
        return Existing(existing.value.id);
      }
      var ids := LockOrder(c.entries);
      var locked := LockAccounts(ids);
      var problem := CheckAccounts(ids, c.currency, c.unit);
      if problem.Some? {
        return Rejected(problem.value);
      }
      var current := CalculateBalances(locked);
      var projected := ProjectBalances(c, locked, current);
      var short := CheckOverdraft(c, ids, locked, projected);
      if short {
        return Rejected(Unprocessable);
      }
      problem := ReversalProblem(Contents(), c);
      if problem.Some? {
        return Rejected(problem.value);
      }
      if FindJournal(journals, newId).Some? {
        return Violation(PrimaryKey);
      }
      if c.reversalOf.Some? && IsReversed(journals, c.reversalOf.value) {
        return Violation(ReversalOf);
      }
      journals := journals + [JournalFor(c, newId)];
      lines := lines + LinesFor(c, newId);
      outcome := Written(newId);
    }
  }

  lemma {:induction false} ProblemSpreads(accounts: seq<Account>, ids: seq<string>, k: nat, currency: string, unit: string)
    requires k <= |ids| && AccountProblems(accounts, ids[..k], currency, unit).Some?
    ensures AccountProblems(accounts, ids, currency, unit) == AccountProblems(accounts, ids[..k], currency, unit)
  {
    if k < |ids| {
      var front := ids[..|ids| - 1];
      assert front[..k] == ids[..k];
      ProblemSpreads(accounts, front, k, currency, unit);
    } else {
      assert ids[..k] == ids;
    }
  }
}
