/** When a call is admitted, in milliseconds, and which callers are never refused. */
module RateAdmission {
  import opened Prelude
  import opened RateLimit

  /** A token is left, or the milliseconds since the saved refill have earned what is missing of one. */
  predicate HasToken(b: Bucket, rule: Rule, now: int) {
    || b.tokens >= 1.0
    || (now > b.lastRefillAt && 1000.0 * b.tokens + (now - b.lastRefillAt) as real * rule.rate >= 1000.0)
  }

  lemma EarnedInMillis(rule: Rule, millis: real)
    ensures 1000.0 * Earned(rule, millis / 1000.0) == millis * rule.rate
  {
  }

  lemma ElapsedMillis(b: Bucket, now: int)
    ensures Elapsed(b, now) == (if now > b.lastRefillAt then (now - b.lastRefillAt) as real / 1000.0 else 0.0)
  {
  }

  /** A first call is admitted; any other exactly when there is a token. */
  lemma AdmittedExactly(b: Bucket, rule: Rule, now: int)
    requires ValidRule(rule)
    ensures Admits(None, rule, now)
    ensures Admits(Some(b), rule, now) <==> HasToken(b, rule, now)
  {
    ElapsedMillis(b, now);
    if now > b.lastRefillAt { EarnedInMillis(rule, (now - b.lastRefillAt) as real); }
  }

  /** What was there and what was earned, up to the capacity. */
  predicate IsFilled(b: Bucket, rule: Rule, now: int, tokens: real) {
    var earned := if now > b.lastRefillAt then (now - b.lastRefillAt) as real * rule.rate else 0.0;
    var full := 1000.0 * rule.capacity as real;
    1000.0 * tokens == if 1000.0 * b.tokens + earned > full then full else 1000.0 * b.tokens + earned
  }

  /** An admitted call takes exactly one token and saves its own time. */
  lemma OneTokenIsTaken(b: Bucket, rule: Rule, now: int)
    requires ValidRule(rule)
    ensures After(None, rule, now) == Some(Bucket(rule.capacity as real - 1.0, now))
    ensures HasToken(b, rule, now) ==>
      && After(Some(b), rule, now).Some? && After(Some(b), rule, now).value.lastRefillAt == now
      && IsFilled(b, rule, now, After(Some(b), rule, now).value.tokens + 1.0)
    ensures !HasToken(b, rule, now) ==> After(Some(b), rule, now) == Some(b)
  {
    AdmittedExactly(b, rule, now);
    ElapsedMillis(b, now);
    if now > b.lastRefillAt { EarnedInMillis(rule, (now - b.lastRefillAt) as real); }
  }

  // ------------------------------------------------------------------------------------------ callers in their rate

  /** A run of calls from an empty row. */
  ghost predicate FromNothing(rows: seq<Option<Bucket>>, rule: Rule, times: seq<int>) {
    Stretch(rows, rule, times) && rows[0].None?
  }

  /** Between any two calls in a row there is time to earn a token. */
  ghost predicate Spaced(rule: Rule, times: seq<int>) {
    forall k | 0 < k < |times| :: times[k - 1] < times[k] && (times[k] - times[k - 1]) as real * rule.rate >= 1000.0
  }

  /** Who keeps to the rate is never refused. */
  lemma {:induction false} SpacedIsAdmitted(rows: seq<Option<Bucket>>, rule: Rule, times: seq<int>, k: nat)
    requires ValidRule(rule) && FromNothing(rows, rule, times) && Spaced(rule, times) && k < |times|
    ensures Admits(rows[k], rule, times[k])
    ensures rows[k + 1].Some? && rows[k + 1].value.tokens >= 0.0 && rows[k + 1].value.lastRefillAt == times[k]
  {
    assert rows[k + 1] == After(rows[k], rule, times[k]);
    if k > 0 {
      SpacedIsAdmitted(rows, rule, times, k - 1);
      AdmittedExactly(rows[k].value, rule, times[k]);
    }
  }

  /** Whatever the clock does, the first calls, as many as the capacity, are admitted. */
  lemma {:induction false} FirstCallsAreAdmitted(rows: seq<Option<Bucket>>, rule: Rule, times: seq<int>, k: nat)
    requires ValidRule(rule) && FromNothing(rows, rule, times) && k < |times| && k < rule.capacity
    ensures Admits(rows[k], rule, times[k])
    ensures rows[k + 1].Some? && rows[k + 1].value.tokens >= (rule.capacity - 1 - k) as real
  {
    assert rows[k + 1] == After(rows[k], rule, times[k]);
    if k > 0 {
      FirstCallsAreAdmitted(rows, rule, times, k - 1);
      EarnedGrows(rule, 0.0, Elapsed(rows[k].value, times[k]));
    }
  }

  /** At one instant exactly so many calls are admitted. */
  lemma {:induction false} BurstIsCapacity(rows: seq<Option<Bucket>>, rule: Rule, times: seq<int>, k: nat)
    requires ValidRule(rule) && FromNothing(rows, rule, times) && k < |times|
    requires forall i | 0 <= i < |times| :: times[i] == times[0]
    ensures Admits(rows[k], rule, times[k]) <==> k < rule.capacity
    ensures rows[k + 1] ==
      Some(Bucket(if k < rule.capacity then (rule.capacity - 1 - k) as real else 0.0, times[0]))
  {
    assert rows[k + 1] == After(rows[k], rule, times[k]);
    if k > 0 {
      BurstIsCapacity(rows, rule, times, k - 1);
      AdmittedExactly(rows[k].value, rule, times[k]);
      assert Elapsed(rows[k].value, times[k]) == 0.0 && Earned(rule, 0.0) == 0.0;
    }
  }
}
