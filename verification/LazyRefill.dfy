/**
 The limiter loses the refill of a rejected call, because the rejection rolls its save back.  Against a bucket that
 saves its refill on every call: exactly when that is noticed.
 */
module LazyRefill {
  import opened Prelude
  import opened RateLimit

  /** The row after calls at the given times. */
  function Run(b: Option<Bucket>, rule: Rule, times: seq<int>): Option<Bucket> {
    if times == [] then b else After(Run(b, rule, times[..|times| - 1]), rule, times[|times| - 1])
  }

  /** A bucket that saves its refill on every call, also when it rejects. */
  function BusyAfter(b: Option<Bucket>, rule: Rule, now: int): Option<Bucket> {
    var refilled := Refilled(Opened(b, rule, now), rule, now);
    Some(if refilled.tokens >= 1.0 then refilled.(tokens := refilled.tokens - 1.0) else refilled)
  }

  function BusyRun(b: Option<Bucket>, rule: Rule, times: seq<int>): Option<Bucket> {
    if times == [] then b else BusyAfter(BusyRun(b, rule, times[..|times| - 1]), rule, times[|times| - 1])
  }

  /** Whatever the time of the next call, both buckets decide it alike. */
  ghost predicate SameDecisions(lazy: Option<Bucket>, busy: Option<Bucket>, rule: Rule) {
    forall t :: Admits(lazy, rule, t) == Admits(busy, rule, t)
  }

  /** The busy bucket is the lazy one, or the lazy one brought up to a later time and still short of a token. */
  predicate CaughtUp(lazy: Option<Bucket>, busy: Option<Bucket>, rule: Rule) {
    || busy == lazy
    || (&& lazy.Some? && busy.Some? && lazy.value.lastRefillAt <= busy.value.lastRefillAt
        && busy.value == Refilled(lazy.value, rule, busy.value.lastRefillAt) && busy.value.tokens < 1.0)
  }

  lemma Weigh(x: real, y: real, rate: real)
    requires rate > 0.0
    ensures x >= y ==> x * rate >= y * rate
    ensures x > y ==> x * rate > y * rate
  {
  }

  lemma RefillGrows(b: Bucket, rule: Rule, t: int, later: int)
    requires ValidRule(rule) && t <= later
    ensures Refilled(b, rule, t).tokens <= Refilled(b, rule, later).tokens
  {
    EarnedGrows(rule, Elapsed(b, t), Elapsed(b, later));
  }

  lemma BehindAddsNothing(b: Bucket, rule: Rule, t: int)
    requires t <= b.lastRefillAt
    ensures Refilled(b, rule, t) == Bucket(Min(rule.capacity as real, b.tokens), t)
  {
    assert Earned(rule, Elapsed(b, t)) == 0.0;
  }

  lemma BothShort(lazy: Bucket, busy: Bucket, rule: Rule, t: int)
    requires ValidRule(rule) && CaughtUp(Some(lazy), Some(busy), rule) && busy.tokens < 1.0 && t < busy.lastRefillAt
    ensures !Admits(Some(lazy), rule, t) && !Admits(Some(busy), rule, t)
  {
    BehindAddsNothing(busy, rule, t);
    if busy != lazy { RefillGrows(lazy, rule, t, busy.lastRefillAt); }
  }

  lemma CaughtUpDecidesAlike(lazy: Option<Bucket>, busy: Option<Bucket>, rule: Rule)
    requires ValidRule(rule) && CaughtUp(lazy, busy, rule)
    ensures SameDecisions(lazy, busy, rule)
  {
    if busy != lazy {
      var saved := busy.value.lastRefillAt;
      forall t ensures Admits(lazy, rule, t) == Admits(busy, rule, t) {
        if t >= saved {
          RefillsCompose(lazy.value, rule, saved, t);
        } else {
          BothShort(lazy.value, busy.value, rule, t);
        }
      }
    }
  }

  /** A call that is admitted, or that is not behind the busy bucket's clock, keeps the two together. */
  lemma TimelyCall(lazy: Option<Bucket>, busy: Option<Bucket>, rule: Rule, now: int)
    requires ValidRule(rule) && CaughtUp(lazy, busy, rule)
    requires Admits(lazy, rule, now) || busy.value.lastRefillAt <= now
    ensures CaughtUp(After(lazy, rule, now), BusyAfter(busy, rule, now), rule)
  {
    CaughtUpDecidesAlike(lazy, busy, rule);
    if busy != lazy && busy.value.lastRefillAt <= now { RefillsCompose(lazy.value, rule, busy.value.lastRefillAt, now); }
  }

  // ------------------------------------------------------------------------------------- a rejected step back shows

  lemma Wait(short: real, rate: real) returns (wait: real)
    requires short > 0.0 && rate > 0.0
    ensures wait > 0.0 && wait * rate >= short
  {
    wait := short / rate;
  }

  lemma LongEnough(short: real, rate: real) returns (n: nat)
    requires short > 0.0 && rate > 0.0
    ensures n > 0 && n as real * rate >= short
  {
    var wait := Wait(short, rate);
    n := wait.Floor + 1;
    Weigh(n as real, wait, rate);
  }

  lemma LastShort(short: real, rate: real, low: nat, high: nat) returns (n: nat)
    requires low < high && low as real * rate < short <= high as real * rate
    ensures n as real * rate < short <= (n + 1) as real * rate
    decreases high - low
  {
    if low + 1 == high || (low + 1) as real * rate >= short {
      n := low;
    } else {
      n := LastShort(short, rate, low + 1, high);
    }
  }

  /** For how many milliseconds a bucket short of a token stays short of it. */
  lemma LastWithout(tokens: real, rate: real) returns (n: nat)
    requires tokens < 1.0 && rate > 0.0
    ensures n as real * rate < 1000.0 * (1.0 - tokens) <= (n + 1) as real * rate
  {
    var enough := LongEnough(1000.0 * (1.0 - tokens), rate);
    n := LastShort(1000.0 * (1.0 - tokens), rate, 0, enough);
  }

  lemma Milli(x: real, rate: real)
    ensures x / 1000.0 * rate == x * rate / 1000.0
  {
  }

  /** A rejected call behind the busy bucket's clock: from then on some call is admitted by the busy bucket only. */
  lemma StepBackShows(lazy: Option<Bucket>, busy: Option<Bucket>, rule: Rule, now: int)
    requires ValidRule(rule) && CaughtUp(lazy, busy, rule) && lazy.Some?
    requires !Admits(lazy, rule, now) && now < busy.value.lastRefillAt
    ensures !SameDecisions(After(lazy, rule, now), BusyAfter(busy, rule, now), rule)
  {
    CaughtUpDecidesAlike(lazy, busy, rule);
    assert !Admits(busy, rule, now);
    BehindAddsNothing(busy.value, rule, now);
    var n := LastWithout(busy.value.tokens, rule.rate);
    HasToken(busy.value.tokens, rule, now, n + 1);
    StillShort(lazy.value, busy.value, rule, now, n);
    assert Admits(BusyAfter(busy, rule, now), rule, now + n + 1) && !Admits(After(lazy, rule, now), rule, now + n + 1);
  }

  lemma HasToken(tokens: real, rule: Rule, now: int, n: int)
    requires ValidRule(rule) && n > 0 && n as real * rule.rate >= 1000.0 * (1.0 - tokens)
    ensures Admits(Some(Bucket(tokens, now)), rule, now + n)
  {
    var gained := n as real * rule.rate;
    assert Elapsed(Bucket(tokens, now), now + n) == n as real / 1000.0;
    assert Earned(rule, n as real / 1000.0) == gained / 1000.0 by { Milli(n as real, rule.rate); }
  }

  lemma TooShort(b: Bucket, rule: Rule, t: int, n: int)
    requires ValidRule(rule) && b.tokens < 1.0 && b.lastRefillAt <= t && t - b.lastRefillAt <= n
    requires 1000.0 * (1.0 - b.tokens) > n as real * rule.rate
    ensures !Admits(Some(b), rule, t)
  {
    var rest := (t - b.lastRefillAt) as real;
    var gained := rest * rule.rate;
    assert gained < 1000.0 * (1.0 - b.tokens) by { Weigh(n as real, rest, rule.rate); }
    assert Elapsed(b, t) == rest / 1000.0;
    assert Earned(rule, Elapsed(b, t)) == gained / 1000.0 by { Milli(rest, rule.rate); }
  }

  lemma StillShort(lazy: Bucket, busy: Bucket, rule: Rule, now: int, n: nat)
    requires ValidRule(rule) && CaughtUp(Some(lazy), Some(busy), rule) && now < busy.lastRefillAt
    requires busy.tokens < 1.0 && 1000.0 * (1.0 - busy.tokens) > n as real * rule.rate
    ensures !Admits(Some(lazy), rule, now + n + 1)
  {
    var t, saved := now + n + 1, busy.lastRefillAt;
    if t < saved {
      BothShort(lazy, busy, rule, t);
    } else {
      if busy != lazy { RefillsCompose(lazy, rule, saved, t); }
      assert Refilled(lazy, rule, t) == Refilled(busy, rule, t);
      TooShort(busy, rule, t, n);
    }
  }

  /**
   One call on any saved row: the lost refill is never noticed if and only if the call is admitted or the clock is not
   behind the saved refill.
   */
  lemma LossIsNoticedExactlyBehind(b: Bucket, rule: Rule, now: int)
    requires ValidRule(rule)
    ensures SameDecisions(After(Some(b), rule, now), BusyAfter(Some(b), rule, now), rule) <==>
      Admits(Some(b), rule, now) || b.lastRefillAt <= now
  {
    if Admits(Some(b), rule, now) || b.lastRefillAt <= now {
      TimelyCall(Some(b), Some(b), rule, now);
      CaughtUpDecidesAlike(After(Some(b), rule, now), BusyAfter(Some(b), rule, now), rule);
    } else {
      StepBackShows(Some(b), Some(b), rule, now);
    }
  }

  // ------------------------------------------------------------------------------------------------- whole runs

  /** The reading before the next call: of the last call, or the saved refill the run starts from. */
  function Reading(b: Option<Bucket>, times: seq<int>): int
    requires b.Some? || times != []
  {
    if times == [] then b.value.lastRefillAt else times[|times| - 1]
  }

  /** No rejected call is behind the reading before it. */
  predicate Timely(b: Option<Bucket>, rule: Rule, times: seq<int>) {
    times != [] ==>
      var front, now := times[..|times| - 1], times[|times| - 1];
      && Timely(b, rule, front)
      && (Admits(Run(b, rule, front), rule, now) || (b.None? && front == []) || Reading(b, front) <= now)
  }

  /** At every point of the run the two buckets decide any next call alike. */
  ghost predicate NeverNoticed(b: Option<Bucket>, rule: Rule, times: seq<int>) {
    && (times != [] ==> NeverNoticed(b, rule, times[..|times| - 1]))
    && SameDecisions(Run(b, rule, times), BusyRun(b, rule, times), rule)
  }

  lemma {:induction false} TimelyRunsStayTogether(b: Option<Bucket>, rule: Rule, times: seq<int>)
    requires ValidRule(rule)
    ensures b.Some? || times != [] ==> Run(b, rule, times).Some? && BusyRun(b, rule, times).Some?
    ensures b.Some? || times != [] ==> BusyRun(b, rule, times).value.lastRefillAt == Reading(b, times)
    ensures Timely(b, rule, times) ==> CaughtUp(Run(b, rule, times), BusyRun(b, rule, times), rule)
  {
    if times != [] {
      var front, now := times[..|times| - 1], times[|times| - 1];
      TimelyRunsStayTogether(b, rule, front);
      if Timely(b, rule, times) { TimelyCall(Run(b, rule, front), BusyRun(b, rule, front), rule, now); }
    }
  }

  /**
   Over whole runs, whatever the clock does: losing the refills of rejected calls is never noticed, at any point of the
   run, if and only if no rejected call comes with a reading behind the one before it.
   */
  lemma {:induction false} LossIsNoticedExactly(b: Option<Bucket>, rule: Rule, times: seq<int>)
    requires ValidRule(rule)
    ensures NeverNoticed(b, rule, times) <==> Timely(b, rule, times)
  {
    if times == [] {
      CaughtUpDecidesAlike(b, b, rule);
    } else {
      var front, now := times[..|times| - 1], times[|times| - 1];
      LossIsNoticedExactly(b, rule, front);
      if Timely(b, rule, front) {
        TimelyRunsStayTogether(b, rule, front);
        TimelyRunsStayTogether(b, rule, times);
        if Timely(b, rule, times) {
          CaughtUpDecidesAlike(Run(b, rule, times), BusyRun(b, rule, times), rule);
        } else {
          StepBackShows(Run(b, rule, front), BusyRun(b, rule, front), rule, now);
        }
      }
    }
  }

  lemma {:induction false} ForwardIsTimely(b: Option<Bucket>, rule: Rule, times: seq<int>)
    requires Forward(times) && (b.Some? && times != [] ==> b.value.lastRefillAt <= times[0])
    ensures Timely(b, rule, times)
  {
    if times != [] {
      var front := times[..|times| - 1];
      ForwardIsTimely(b, rule, front);
      assert front != [] ==> front[|front| - 1] == times[|times| - 2];
    }
  }

  /** In particular with a clock that never steps back every decision is that of the bucket that always saves. */
  lemma LazyRefillDecidesAlike(b: Option<Bucket>, rule: Rule, times: seq<int>, now: int)
    requires ValidRule(rule) && Forward(times) && (b.Some? && times != [] ==> b.value.lastRefillAt <= times[0])
    ensures Admits(Run(b, rule, times), rule, now) == Admits(BusyRun(b, rule, times), rule, now)
  {
    ForwardIsTimely(b, rule, times);
    LossIsNoticedExactly(b, rule, times);
  }

  /** A witness: a call rejected a second behind the one before it; the busy bucket counts that second twice. */
  lemma SteppingBackIsNoticed()
    ensures var rule, times := Rule("login", 1, 1.0, true), [1000, 0];
      !Timely(None, rule, times) && !NeverNoticed(None, rule, times)
  {
    var rule := Rule("login", 1, 1.0, true);
    assert [1000, 0][..1] == [1000] && [1000][..0] == [];
    assert Run(None, rule, [1000]) == Some(Bucket(0.0, 1000));
    LossIsNoticedExactly(None, rule, [1000, 0]);
  }
}
