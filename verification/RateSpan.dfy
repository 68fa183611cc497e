/** The usual rate bound, on the time a run spans, under a clock that may step back: which rules keep it. */
module RateSpan {
  import opened Prelude
  import opened RateLimit

  function Latest(times: seq<int>): (t: int)
    requires times != []
    ensures t in times
    ensures forall k | 0 <= k < |times| :: times[k] <= t
  {
    var last := times[|times| - 1];
    if |times| == 1 then last
    else
      var front := times[..|times| - 1];
      assert forall k | 0 <= k < |times| - 1 :: times[k] == front[k];
      if Latest(front) > last then Latest(front) else last
  }

  /** A run of at least one call from an empty row. */
  ghost predicate FromEmpty(rows: seq<Option<Bucket>>, rule: Rule, times: seq<int>) {
    times != [] && Stretch(rows, rule, times) && rows[0].None?
  }

  /** Admissions are at most the capacity plus the rate times the span, from the first reading to the latest. */
  ghost predicate MeetsSpanBound(rows: seq<Option<Bucket>>, rule: Rule, times: seq<int>)
    requires |rows| == |times| + 1 && times != []
  {
    Admissions(rows, rule, times) <= Allowance(rule, Seconds(times[0], Latest(times)))
  }

  // --------------------------------------------------------------------------------------- a bucket of one token

  /** After an admission the bucket is empty, so the next admission is later: the saved time never goes back. */
  predicate Emptied(row: Option<Bucket>, moved: real, start: int, latest: int) {
    && row.Some? && row.value.tokens == 0.0 && start <= row.value.lastRefillAt <= latest
    && moved <= Seconds(start, row.value.lastRefillAt)
  }

  lemma EmptiedStep(row: Option<Bucket>, rule: Rule, moved: real, start: int, latest: int, now: int)
    requires ValidRule(rule) && rule.capacity == 1 && Emptied(row, moved, start, latest) && now <= latest
    ensures Emptied(After(row, rule, now), moved + Moved(row, rule, now), start, latest)
  {
  }

  lemma {:induction false} UnitCapacityEmpties(rows: seq<Option<Bucket>>, rule: Rule, times: seq<int>, k: nat)
    requires ValidRule(rule) && rule.capacity == 1 && Stretch(rows, rule, times) && rows[0].None? && 0 < k <= |times|
    ensures Emptied(rows[k], Total(Moves(rows, rule, times)[..k]), times[0], Latest(times))
  {
    var moves := Moves(rows, rule, times);
    assert moves[..k][..k - 1] == moves[..k - 1];
    assert rows[k] == After(rows[k - 1], rule, times[k - 1]);
    if k > 1 {
      UnitCapacityEmpties(rows, rule, times, k - 1);
      EmptiedStep(rows[k - 1], rule, Total(moves[..k - 1]), times[0], Latest(times), times[k - 1]);
    }
  }

  lemma UnitCapacityMeetsBound(rows: seq<Option<Bucket>>, rule: Rule, times: seq<int>)
    requires ValidRule(rule) && rule.capacity == 1 && FromEmpty(rows, rule, times)
    ensures MeetsSpanBound(rows, rule, times)
  {
    RateBound(rows, rule, times);
    UnitCapacityEmpties(rows, rule, times, |times|);
    assert Moves(rows, rule, times)[..|times|] == Moves(rows, rule, times);
    EarnedGrows(rule, ForwardMovement(rows, rule, times), Seconds(times[0], Latest(times)));
  }

  // ------------------------------------------------------------------------------------------ a clock that swings

  /** A clock alternating between 0 and a later instant. */
  function Swinging(swing: int, n: nat): seq<int> {
    seq(n, k requires 0 <= k < n => if k % 2 == 0 then 0 else swing)
  }

  /** The rows of a run on that clock: filled up at each swing forward, drained by the two calls in between. */
  function SwingingRow(capacity: int, swing: int, k: nat): Option<Bucket> {
    if k == 0 then None
    else if k % 2 == 0 then Some(Bucket(capacity as real - 1.0, swing))
    else if k == 1 then Some(Bucket(capacity as real - 1.0, 0))
    else Some(Bucket(capacity as real - 2.0, 0))
  }

  lemma SwingingCall(rule: Rule, swing: int, k: nat)
    requires ValidRule(rule) && rule.capacity >= 2 && swing > 0 && Earned(rule, Seconds(0, swing)) >= 2.0
    ensures var now := if k % 2 == 0 then 0 else swing;
      && Admits(SwingingRow(rule.capacity, swing, k), rule, now)
      && After(SwingingRow(rule.capacity, swing, k), rule, now) == SwingingRow(rule.capacity, swing, k + 1)
  {
  }

  lemma {:induction false} TotalOfOnes(s: seq<real>)
    requires forall k | 0 <= k < |s| :: s[k] == 1.0
    ensures Total(s) == |s| as real
  {
    if s != [] { TotalOfOnes(s[..|s| - 1]); }
  }

  /** On a clock that swings far enough every call is admitted. */
  lemma SwingingAdmitsAll(rule: Rule, swing: int, n: nat) returns (rows: seq<Option<Bucket>>)
    requires ValidRule(rule) && rule.capacity >= 2 && swing > 0 && Earned(rule, Seconds(0, swing)) >= 2.0
    ensures Stretch(rows, rule, Swinging(swing, n)) && rows[0].None?
    ensures Admissions(rows, rule, Swinging(swing, n)) == n as real
  {
    rows := seq(n + 1, k requires 0 <= k < n + 1 => SwingingRow(rule.capacity, swing, k));
    forall k | 0 <= k < n
      ensures rows[k + 1] == After(rows[k], rule, Swinging(swing, n)[k]) && Spends(rows, rule, Swinging(swing, n))[k] == 1.0
    {
      SwingingCall(rule, swing, k);
    }
    TotalOfOnes(Spends(rows, rule, Swinging(swing, n)));
  }

  lemma WideSwing(rule: Rule) returns (swing: int)
    requires ValidRule(rule)
    ensures swing > 0 && Earned(rule, Seconds(0, swing)) >= 2.0
  {
    var long := 2000.0 / rule.rate;
    Quotient(rule.rate);
    swing := long.Floor + 1;
    EarnedGrows(rule, long / 1000.0, Seconds(0, swing));
  }

  lemma Quotient(rate: real)
    requires rate > 0.0
    ensures 2000.0 / rate > 0.0 && 2000.0 / rate / 1000.0 * rate == 2.0
  {
    assert 2000.0 / rate * rate == 2000.0;
  }

  lemma SwingingSpan(swing: int, n: nat)
    requires swing > 0 && n >= 2
    ensures Swinging(swing, n)[0] == 0 && Latest(Swinging(swing, n)) == swing
  {
    assert Swinging(swing, n)[1] == swing;
  }

  lemma Exceeds(bound: real) returns (n: nat)
    ensures n as real > bound && n >= 2
  {
    n := if bound < 2.0 then 2 else bound.Floor + 1;
  }

  lemma BiggerBucketBreaksBound(rule: Rule) returns (rows: seq<Option<Bucket>>, times: seq<int>)
    requires ValidRule(rule) && rule.capacity >= 2
    ensures FromEmpty(rows, rule, times) && !MeetsSpanBound(rows, rule, times)
  {
    var swing := WideSwing(rule);
    var n := Exceeds(Allowance(rule, Seconds(0, swing)));
    times := Swinging(swing, n);
    rows := SwingingAdmitsAll(rule, swing, n);
    SwingingSpan(swing, n);
  }

  /**
   Under a clock that may step back anywhere, every run from an empty row keeps the bound on the time it spans if and
   only if the bucket holds one token.
   */
  lemma SpanBoundNeedsUnitCapacity(rule: Rule)
    requires ValidRule(rule)
    ensures rule.capacity == 1 <==>
      forall rows, times | FromEmpty(rows, rule, times) :: MeetsSpanBound(rows, rule, times)
  {
    if rule.capacity == 1 {
      forall rows, times | FromEmpty(rows, rule, times)
        ensures MeetsSpanBound(rows, rule, times)
      {
        UnitCapacityMeetsBound(rows, rule, times);
      }
    } else {
      var rows, times := BiggerBucketBreaksBound(rule);
    }
  }
}
