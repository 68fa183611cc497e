/** The token bucket of the security rate limiter: lazy refill, rollback on rejection, a clock that may step back. */
module RateLimit {
  import opened Prelude

  const MAX_SAFE_INTEGER := 9007199254740991

  /** Times are in milliseconds, the rate in tokens a second. */
  datatype Rule = Rule(category: string, capacity: int, rate: real, enabled: bool)

  datatype Bucket = Bucket(tokens: real, lastRefillAt: int)

  datatype Reply = Admitted | Rejected | NotLimited | InvalidRule

  predicate ValidRule(rule: Rule) {
    0 < rule.capacity <= MAX_SAFE_INTEGER && 0.0 < rule.rate <= MAX_SAFE_INTEGER as real
  }

  function Min(a: real, b: real): real {
    if a <= b then a else b
  }

  function Seconds(from: int, to: int): real {
    (to - from) as real / 1000.0
  }

  /** Seconds by which the clock is ahead of the last saved refill; nothing when it has stepped back. */
  function Elapsed(b: Bucket, now: int): real {
    if now > b.lastRefillAt then Seconds(b.lastRefillAt, now) else 0.0
  }

  function Earned(rule: Rule, seconds: real): real {
    seconds * rule.rate
  }

  function Refilled(b: Bucket, rule: Rule, now: int): Bucket {
    Bucket(Min(rule.capacity as real, b.tokens + Earned(rule, Elapsed(b, now))), now)
  }

  function Opened(b: Option<Bucket>, rule: Rule, now: int): Bucket {
    if b.None? then Bucket(rule.capacity as real, now) else b.value
  }

  predicate Admits(b: Option<Bucket>, rule: Rule, now: int) {
    Refilled(Opened(b, rule, now), rule, now).tokens >= 1.0
  }

  /** The row after one call.  A rejection throws inside the transaction, which rolls its saved refill back. */
  function After(b: Option<Bucket>, rule: Rule, now: int): Option<Bucket> {
    if Admits(b, rule, now) then
      var refilled := Refilled(Opened(b, rule, now), rule, now);
      Some(refilled.(tokens := refilled.tokens - 1.0))
    else b
  }

  class RateLimiter {
    var rows: map<string, Bucket>

    function Row(key: string): Option<Bucket>
      reads this
    {
      if key in rows then Some(rows[key]) else None
    }

    method Consume(rule: Rule, key: string, now: int) returns (reply: Reply)
      modifies this
      ensures reply == if !ValidRule(rule) then InvalidRule
                       else if !rule.enabled then NotLimited
                       else if Admits(old(Row(key)), rule, now) then Admitted else Rejected
      ensures Row(key) == if reply.Admitted? then After(old(Row(key)), rule, now) else old(Row(key))
      ensures forall other | other != key :: Row(other) == old(Row(other))
    {
      if !ValidRule(rule) {
        return InvalidRule;
      }
      if !rule.enabled {
        return NotLimited;
      }
      var before := rows;
      var b := if key in rows then rows[key] else Bucket(rule.capacity as real, now);
      var elapsed := if now > b.lastRefillAt then (now - b.lastRefillAt) as real / 1000.0 else 0.0;
      ghost var row := Opened(old(Row(key)), rule, now);
      assert b == row && elapsed == Elapsed(row, now);
      b := Bucket(Min(rule.capacity as real, b.tokens + elapsed * rule.rate), now);
      assert b == Refilled(row, rule, now);
      if b.tokens < 1.0 {
        rows := rows[key := b];
        rows := before;
        return Rejected;
      }
      b := b.(tokens := b.tokens - 1.0);
      rows := rows[key := b];
      reply := Admitted;
    }
  }

  // ------------------------------------------------------------------------------------ any stretch of any run

  /** The rows before and after each of the calls at the given times. */
  ghost predicate Stretch(rows: seq<Option<Bucket>>, rule: Rule, times: seq<int>) {
    |rows| == |times| + 1 && forall k | 0 <= k < |times| :: rows[k + 1] == After(rows[k], rule, times[k])
  }

  function Spent(b: Option<Bucket>, rule: Rule, now: int): real {
    if Admits(b, rule, now) then 1.0 else 0.0
  }

  /** The forward clock movement since the last admission that an admission at this call turns into tokens. */
  function Moved(b: Option<Bucket>, rule: Rule, now: int): real {
    if Admits(b, rule, now) && b.Some? then Elapsed(b.value, now) else 0.0
  }

  function Spends(rows: seq<Option<Bucket>>, rule: Rule, times: seq<int>): seq<real>
    requires |rows| == |times| + 1
  {
    seq(|times|, k requires 0 <= k < |times| => Spent(rows[k], rule, times[k]))
  }

  function Moves(rows: seq<Option<Bucket>>, rule: Rule, times: seq<int>): seq<real>
    requires |rows| == |times| + 1
  {
    seq(|times|, k requires 0 <= k < |times| => Moved(rows[k], rule, times[k]))
  }

  function Total(s: seq<real>): real {
    if s == [] then 0.0 else Total(s[..|s| - 1]) + s[|s| - 1]
  }

  /** How many calls were admitted. */
  function Admissions(rows: seq<Option<Bucket>>, rule: Rule, times: seq<int>): real
    requires |rows| == |times| + 1
  {
    Total(Spends(rows, rule, times))
  }

  /** Forward clock movement between consecutive admissions, in seconds. */
  function ForwardMovement(rows: seq<Option<Bucket>>, rule: Rule, times: seq<int>): real
    requires |rows| == |times| + 1
  {
    Total(Moves(rows, rule, times))
  }

  predicate InRange(b: Option<Bucket>, rule: Rule) {
    b.Some? ==> 0.0 <= b.value.tokens <= rule.capacity as real
  }

  /** A row saved under a larger capacity may hold more than the rule allows now. */
  predicate NotNegative(b: Option<Bucket>) {
    b.Some? ==> 0.0 <= b.value.tokens
  }

  /** What a call can count on: never more than the capacity. */
  function TokensIn(b: Option<Bucket>, rule: Rule): real {
    if b.Some? then Min(rule.capacity as real, b.value.tokens) else rule.capacity as real
  }

  /** One call: what it spends and what it leaves come out of what was there and what the movement added. */
  lemma CallSpendsAtMostOne(b: Option<Bucket>, rule: Rule, now: int)
    requires ValidRule(rule) && NotNegative(b)
    ensures NotNegative(After(b, rule, now))
    ensures After(b, rule, now) != b || InRange(b, rule) ==> InRange(After(b, rule, now), rule)
    ensures Spent(b, rule, now) + TokensIn(After(b, rule, now), rule)
      <= TokensIn(b, rule) + Earned(rule, Moved(b, rule, now))
  {
  }

  /** Stored tokens stay between nothing and the capacity. */
  lemma {:induction false} TokensStayInRange(rows: seq<Option<Bucket>>, rule: Rule, times: seq<int>, k: nat)
    requires ValidRule(rule) && Stretch(rows, rule, times) && NotNegative(rows[0]) && k <= |times|
    ensures NotNegative(rows[k]) && (InRange(rows[0], rule) ==> InRange(rows[k], rule))
    ensures 0.0 <= TokensIn(rows[k], rule) <= rule.capacity as real
  {
    if k > 0 {
      TokensStayInRange(rows, rule, times, k - 1);
      CallSpendsAtMostOne(rows[k - 1], rule, times[k - 1]);
    }
  }

  lemma EarnedAddsUp(rule: Rule, x: real, y: real)
    ensures Earned(rule, x + y) == Earned(rule, x) + Earned(rule, y)
  {
  }

  lemma EarnedGrows(rule: Rule, x: real, y: real)
    requires ValidRule(rule) && x <= y
    ensures Earned(rule, x) <= Earned(rule, y)
    ensures x >= 0.0 ==> Earned(rule, x) >= 0.0
  {
  }

  predicate Pays(spent: real, before: real, after: real, rule: Rule, move: real) {
    spent + after <= before + Earned(rule, move)
  }

  /** What a full bucket and the tokens earned in a time allow. */
  function Allowance(rule: Rule, seconds: real): real {
    rule.capacity as real + Earned(rule, seconds)
  }

  /** Accounts of single calls add up to an account of the stretch. */
  lemma {:induction false} Telescope(spent: seq<real>, held: seq<real>, moves: seq<real>, rule: Rule)
    requires |held| == |spent| + 1 && |moves| == |spent|
    requires forall k | 0 <= k < |spent| :: Pays(spent[k], held[k], held[k + 1], rule, moves[k])
    ensures Pays(Total(spent), held[0], held[|spent|], rule, Total(moves))
  {
    if spent != [] {
      var n := |spent| - 1;
      assert Pays(spent[n], held[n], held[n + 1], rule, moves[n]);
      Telescope(spent[..n], held[..n + 1], moves[..n], rule);
      EarnedAddsUp(rule, Total(moves[..n]), moves[n]);
    }
  }

  lemma HeldWithin(n: real, first: real, last: real, rule: Rule, moved: real)
    requires Pays(n, first, last, rule, moved) && first <= rule.capacity as real && 0.0 <= last
    ensures n <= Allowance(rule, moved)
  {
  }

  /** What each call can count on. */
  function Held(rows: seq<Option<Bucket>>, rule: Rule): seq<real> {
    seq(|rows|, k requires 0 <= k < |rows| => TokensIn(rows[k], rule))
  }

  lemma AllPay(rows: seq<Option<Bucket>>, rule: Rule, times: seq<int>)
    requires ValidRule(rule) && Stretch(rows, rule, times) && NotNegative(rows[0])
    ensures var spends, held, moves := Spends(rows, rule, times), Held(rows, rule), Moves(rows, rule, times);
      forall k | 0 <= k < |times| :: Pays(spends[k], held[k], held[k + 1], rule, moves[k])
  {
    var spends, held, moves := Spends(rows, rule, times), Held(rows, rule), Moves(rows, rule, times);
    forall k | 0 <= k < |times| ensures Pays(spends[k], held[k], held[k + 1], rule, moves[k]) {
      CallPays(rows, rule, times, k);
    }
  }

  /** Over any stretch of any run, from any saved row, whatever the clock does. */
  lemma RateBound(rows: seq<Option<Bucket>>, rule: Rule, times: seq<int>)
    requires ValidRule(rule) && Stretch(rows, rule, times) && NotNegative(rows[0])
    ensures Admissions(rows, rule, times) <= Allowance(rule, ForwardMovement(rows, rule, times))
  {
    AllPay(rows, rule, times);
    Telescope(Spends(rows, rule, times), Held(rows, rule), Moves(rows, rule, times), rule);
    TokensStayInRange(rows, rule, times, 0);
    TokensStayInRange(rows, rule, times, |times|);
    HeldWithin(Admissions(rows, rule, times), Held(rows, rule)[0], Held(rows, rule)[|times|], rule,
      ForwardMovement(rows, rule, times));
  }

  lemma CallPays(rows: seq<Option<Bucket>>, rule: Rule, times: seq<int>, k: nat)
    requires ValidRule(rule) && Stretch(rows, rule, times) && NotNegative(rows[0]) && k < |times|
    ensures Pays(Spent(rows[k], rule, times[k]), TokensIn(rows[k], rule), TokensIn(rows[k + 1], rule), rule,
                 Moved(rows[k], rule, times[k]))
  {
    TokensStayInRange(rows, rule, times, k);
    CallSpendsAtMostOne(rows[k], rule, times[k]);
  }

  /** The clock never steps back. */
  ghost predicate Forward(times: seq<int>) {
    forall i, k | 0 <= i <= k < |times| :: times[i] <= times[k]
  }

  /** Up to the last saved refill, forward movement is no more than the time that passed. */
  predicate MovementWithin(row: Option<Bucket>, moved: real, start: int, last: int) {
    if row.None? then moved == 0.0
    else start <= row.value.lastRefillAt <= last && moved <= Seconds(start, row.value.lastRefillAt)
  }

  lemma MovementStep(row: Option<Bucket>, rule: Rule, moved: real, start: int, last: int, now: int)
    requires MovementWithin(row, moved, start, last) && start <= last <= now
    ensures MovementWithin(After(row, rule, now), moved + Moved(row, rule, now), start, now)
  {
  }

  lemma {:induction false} MovementIsNetTime(rows: seq<Option<Bucket>>, rule: Rule, times: seq<int>, k: nat)
    requires Stretch(rows, rule, times) && Forward(times) && 0 < k <= |times|
    requires rows[0].Some? ==> rows[0].value.lastRefillAt == times[0]
    ensures MovementWithin(rows[k], Total(Moves(rows, rule, times)[..k]), times[0], times[k - 1])
  {
    var moves := Moves(rows, rule, times);
    assert moves[..k][..k - 1] == moves[..k - 1];
    if k > 1 {
      MovementIsNetTime(rows, rule, times, k - 1);
      assert times[0] <= times[k - 2] <= times[k - 1];
      MovementStep(rows[k - 1], rule, Total(moves[..k - 1]), times[0], times[k - 2], times[k - 1]);
    } else {
      MovementStep(rows[0], rule, 0.0, times[0], times[0], times[0]);
    }
  }

  /** Two clamped refills in a row are one clamped refill over both intervals. */
  lemma RefillsCompose(b: Bucket, rule: Rule, mid: int, now: int)
    requires ValidRule(rule) && b.lastRefillAt <= mid <= now
    ensures Refilled(Refilled(b, rule, mid), rule, now) == Refilled(b, rule, now)
  {
    var x, y := Elapsed(b, mid), Elapsed(Bucket(0.0, mid), now);
    assert Elapsed(b, now) == x + y;
    EarnedAddsUp(rule, x, y);
    EarnedGrows(rule, y, y);
  }

  /** The row brought up to a time; refilling it later gives what refilling the row itself gives. */
  function BroughtUp(b: Option<Bucket>, rule: Rule, start: int): Option<Bucket> {
    if b.Some? && b.value.lastRefillAt < start then Some(Refilled(b.value, rule, start)) else b
  }

  lemma BroughtUpDecidesAlike(b: Option<Bucket>, rule: Rule, start: int, now: int)
    requires ValidRule(rule) && NotNegative(b) && start <= now
    ensures Spent(BroughtUp(b, rule, start), rule, now) == Spent(b, rule, now)
    ensures After(BroughtUp(b, rule, start), rule, now) == BroughtUp(After(b, rule, now), rule, start)
    ensures NotNegative(BroughtUp(b, rule, start))
  {
    if b.Some? && b.value.lastRefillAt < start { RefillsCompose(b.value, rule, start, now); }
  }

  /** With a clock that never steps back the bound is the usual one, on the time from the first call to the last. */
  lemma RateBoundOnNetTime(rows: seq<Option<Bucket>>, rule: Rule, times: seq<int>, net: real)
    requires ValidRule(rule) && Stretch(rows, rule, times) && NotNegative(rows[0])
    requires Forward(times) && times != [] && (rows[0].Some? ==> rows[0].value.lastRefillAt <= times[0])
    requires net == Seconds(times[0], times[|times| - 1])
    ensures Admissions(rows, rule, times) <= Allowance(rule, net)
  {
    var refilled := seq(|rows|, k requires 0 <= k < |rows| => BroughtUp(rows[k], rule, times[0]));
    forall k | 0 <= k < |times|
      ensures refilled[k + 1] == After(refilled[k], rule, times[k])
      ensures Spends(refilled, rule, times)[k] == Spends(rows, rule, times)[k]
    {
      TokensStayInRange(rows, rule, times, k);
      BroughtUpDecidesAlike(rows[k], rule, times[0], times[k]);
    }
    assert Spends(refilled, rule, times) == Spends(rows, rule, times);
    BroughtUpDecidesAlike(rows[0], rule, times[0], times[0]);
    RateBoundFromRefill(refilled, rule, times, net);
  }

  lemma RateBoundFromRefill(rows: seq<Option<Bucket>>, rule: Rule, times: seq<int>, net: real)
    requires ValidRule(rule) && Stretch(rows, rule, times) && NotNegative(rows[0])
    requires Forward(times) && times != [] && (rows[0].Some? ==> rows[0].value.lastRefillAt == times[0])
    requires net == Seconds(times[0], times[|times| - 1])
    ensures Admissions(rows, rule, times) <= Allowance(rule, net)
  {
    RateBound(rows, rule, times);
    MovementIsNetTime(rows, rule, times, |times|);
    assert Moves(rows, rule, times)[..|times|] == Moves(rows, rule, times);
    EarnedGrows(rule, ForwardMovement(rows, rule, times), net);
  }
}
