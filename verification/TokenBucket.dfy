/** The token bucket of `billing/infrastructure/token_bucket.py`, in exact arithmetic.
    Times are Redis `TIME` readings in microseconds. Token amounts are micro-tokens, so a
    rate of `r` tokens a second adds exactly `r` units every microsecond. */
module TokenBucket {

  const MICRO: int := 1_000_000
  const BUCKET_TTL: int := 3600 * MICRO

  datatype Limits = Limits(capacity: nat, rate: nat) {
    function Full(): int { capacity * MICRO }

    /** An empty bucket refills completely within the lifetime of its key. */
    predicate Steady() { rate * 3600 >= capacity }
  }

  datatype Retry = After(seconds: real) | Never

  datatype Decision = Decision(allowed: bool, remaining: int, retry: Retry)

  datatype Bucket = Missing | Stored(tokens: int, lastRefill: int, deadline: int)

  datatype Consumption = Consumption(bucket: Bucket, decision: Decision)

  datatype Call = Call(now: int, cost: nat)

  function Min(a: int, b: int): int { if a < b then a else b }

  function Max(a: int, b: int): int { if a < b then b else a }

  /** Units refilled in `span` microseconds. */
  function Gain(rate: nat, span: int): int { rate * span }

  function Refill(l: Limits, tokens: int, lastRefill: int, now: int): int {
    Min(l.Full(), tokens + Gain(l.rate, Max(0, now - lastRefill)))
  }

  /** Time to earn `deficit` units. A zero rate divides to infinity. */
  function Hint(rate: nat, deficit: int): Retry {
    if rate == 0 then Never else After(deficit as real / (rate * MICRO) as real)
  }

  /** The verdict on a call that finds `level` tokens. */
  function Decide(l: Limits, level: int, cost: nat): Decision {
    var price := cost * MICRO;
    if level < price then
      Decision(false, level, Hint(l.rate, price - level))
    else
      Decision(true, level - price, After(0.0))
  }

  /** Tokens a call at `now` finds: an absent or expired key stands for a full bucket. */
  function Level(l: Limits, b: Bucket, now: int): int {
    match b
    case Missing => l.Full()
    case Stored(tokens, last, deadline) => if now >= deadline then l.Full() else Refill(l, tokens, last, now)
  }

  function Consume(l: Limits, b: Bucket, now: int, cost: nat): Consumption {
    var d := Decide(l, Level(l, b, now), cost);
    Consumption(Stored(d.remaining, now, now + BUCKET_TTL), d)
  }

  predicate Valid(l: Limits, b: Bucket) {
    b.Stored? ==> 0 <= b.tokens <= l.Full() && b.deadline == b.lastRefill + BUCKET_TTL
  }

  // ---- Runs: the bucket after a sequence of calls, and the decisions it gave ----

  function BucketAfter(l: Limits, b: Bucket, calls: seq<Call>): Bucket {
    if calls == [] then b
    else
      var n := |calls| - 1;
      Consume(l, BucketAfter(l, b, calls[..n]), calls[n].now, calls[n].cost).bucket
  }

  function Decisions(l: Limits, b: Bucket, calls: seq<Call>): (ds: seq<Decision>)
    ensures |ds| == |calls|
  {
    if calls == [] then []
    else
      var n := |calls| - 1;
      Decisions(l, b, calls[..n]) + [Consume(l, BucketAfter(l, b, calls[..n]), calls[n].now, calls[n].cost).decision]
  }

  predicate Nondecreasing(calls: seq<Call>) {
    forall i, j :: 0 <= i < j < |calls| ==> calls[i].now <= calls[j].now
  }

  /** Tokens admitted in the window `[s, t]`. */
  function Spent(calls: seq<Call>, ds: seq<Decision>, s: int, t: int): nat
    requires |calls| == |ds|
  {
    if calls == [] then 0
    else
      var n := |calls| - 1;
      Spent(calls[..n], ds[..n], s, t) + if ds[n].allowed && s <= calls[n].now <= t then calls[n].cost else 0
  }

  /** All tokens admitted. */
  function Charged(calls: seq<Call>, ds: seq<Decision>): nat
    requires |calls| == |ds|
  {
    if calls == [] then 0
    else
      var n := |calls| - 1;
      Charged(calls[..n], ds[..n]) + if ds[n].allowed then calls[n].cost else 0
  }

  /** The entries whose flag is set, in order. */
  function Kept<T>(xs: seq<T>, keep: seq<bool>): seq<T>
    requires |xs| == |keep|
  {
    if xs == [] then []
    else
      var n := |xs| - 1;
      Kept(xs[..n], keep[..n]) + if keep[n] then [xs[n]] else []
  }

  lemma {:induction false} Snoc(l: Limits, b: Bucket, calls: seq<Call>, c: Call)
    ensures BucketAfter(l, b, calls + [c]) == Consume(l, BucketAfter(l, b, calls), c.now, c.cost).bucket
    ensures Decisions(l, b, calls + [c]) ==
            Decisions(l, b, calls) + [Consume(l, BucketAfter(l, b, calls), c.now, c.cost).decision]
  {
    assert (calls + [c])[..|calls|] == calls;
  }

  lemma {:induction false} SpentSnoc(calls: seq<Call>, ds: seq<Decision>, c: Call, d: Decision, s: int, t: int)
    requires |calls| == |ds|
    ensures Spent(calls + [c], ds + [d], s, t) ==
            Spent(calls, ds, s, t) + if d.allowed && s <= c.now <= t then c.cost else 0
  {
    assert (calls + [c])[..|calls|] == calls && (ds + [d])[..|ds|] == ds;
  }

  lemma {:induction false} ChargedSnoc(calls: seq<Call>, ds: seq<Decision>, c: Call, d: Decision)
    requires |calls| == |ds|
    ensures Charged(calls + [c], ds + [d]) == Charged(calls, ds) + if d.allowed then c.cost else 0
  {
    assert (calls + [c])[..|calls|] == calls && (ds + [d])[..|ds|] == ds;
  }

  lemma {:induction false} KeptSnoc<T>(xs: seq<T>, keep: seq<bool>, x: T, k: bool)
    requires |xs| == |keep|
    ensures Kept(xs + [x], keep + [k]) == Kept(xs, keep) + if k then [x] else []
  {
    assert (xs + [x])[..|xs|] == xs && (keep + [k])[..|keep|] == keep;
  }

  lemma {:induction false} GainAdds(rate: nat, a: int, b: int)
    ensures Gain(rate, a + b) == Gain(rate, a) + Gain(rate, b)
  {
  }

  lemma {:induction false} GainMono(rate: nat, a: int, b: int)
    requires a <= b
    ensures Gain(rate, a) <= Gain(rate, b)
  {
  }

  lemma {:induction false} GainZero(rate: nat)
    ensures Gain(rate, 0) == 0
  {
  }

  /** Steady limits refill a whole bucket while the key lives. */
  lemma {:induction false} SteadyGain(l: Limits)
    ensures Gain(l.rate, BUCKET_TTL) >= l.Full() <==> l.Steady()
  {
  }

  lemma {:induction false} LevelInRange(l: Limits, b: Bucket, now: int)
    requires Valid(l, b)
    ensures 0 <= Level(l, b, now) <= l.Full()
  {
    hide Gain;
    GainZero(l.rate);
    if b.Stored? { GainMono(l.rate, 0, Max(0, now - b.lastRefill)); }
  }

  lemma {:induction false} AfterIsValid(l: Limits, b: Bucket, calls: seq<Call>)
    requires Valid(l, b)
    ensures Valid(l, BucketAfter(l, b, calls))
    ensures calls != [] ==> BucketAfter(l, b, calls).Stored?
                            && BucketAfter(l, b, calls).lastRefill == calls[|calls| - 1].now
  {
    hide Gain, Hint;
    if calls != [] {
      var n := |calls| - 1;
      AfterIsValid(l, b, calls[..n]);
      LevelInRange(l, BucketAfter(l, b, calls[..n]), calls[n].now);
    }
  }

  // ---- The eager bucket: ticks every microsecond the clock advances, never expires ----

  datatype Eager = Eager(tokens: int, clock: int)

  function Tick(l: Limits, tokens: int, n: nat): int {
    if n == 0 then tokens else Min(l.Full(), Tick(l, tokens, n - 1) + l.rate)
  }

  /** Tokens lost to the clamp over `n` ticks. */
  function TickSpill(l: Limits, tokens: int, n: nat): int {
    if n == 0 then 0
    else TickSpill(l, tokens, n - 1) + Max(0, Tick(l, tokens, n - 1) + l.rate - l.Full())
  }

  function EagerAfter(l: Limits, e: Eager, calls: seq<Call>): Eager {
    if calls == [] then e
    else
      var n := |calls| - 1;
      var before := EagerAfter(l, e, calls[..n]);
      var level := Tick(l, before.tokens, Max(0, calls[n].now - before.clock));
      Eager(Decide(l, level, calls[n].cost).remaining, calls[n].now)
  }

  function EagerDecisions(l: Limits, e: Eager, calls: seq<Call>): (ds: seq<Decision>)
    ensures |ds| == |calls|
  {
    if calls == [] then []
    else
      var n := |calls| - 1;
      var before := EagerAfter(l, e, calls[..n]);
      var level := Tick(l, before.tokens, Max(0, calls[n].now - before.clock));
      EagerDecisions(l, e, calls[..n]) + [Decide(l, level, calls[n].cost)]
  }

  /** Tokens lost to the clamp over a whole run of the eager bucket. */
  function Spilled(l: Limits, e: Eager, calls: seq<Call>): int {
    if calls == [] then 0
    else
      var n := |calls| - 1;
      var before := EagerAfter(l, e, calls[..n]);
      Spilled(l, e, calls[..n]) + TickSpill(l, before.tokens, Max(0, calls[n].now - before.clock))
  }

  /** Microseconds the clock moved forward from `start` over a run; steps back add nothing. */
  function Travel(start: int, calls: seq<Call>): int {
    if calls == [] then 0
    else
      var n := |calls| - 1;
      Travel(start, calls[..n]) + Max(0, calls[n].now - if n == 0 then start else calls[n - 1].now)
  }

  predicate Matches(l: Limits, b: Bucket, e: Eager) {
    match b
    case Missing => e.tokens == l.Full()
    case Stored(tokens, last, _) => tokens == e.tokens && last == e.clock
  }

  lemma {:induction false} TickClosedForm(l: Limits, tokens: int, n: nat)
    requires 0 <= tokens <= l.Full()
    ensures Tick(l, tokens, n) == Min(l.Full(), tokens + Gain(l.rate, n))
    ensures 0 <= Tick(l, tokens, n) && 0 <= TickSpill(l, tokens, n)
    ensures tokens + Gain(l.rate, n) == Tick(l, tokens, n) + TickSpill(l, tokens, n)
  {
    if n > 0 {
      TickClosedForm(l, tokens, n - 1);
      assert Gain(l.rate, n) == Gain(l.rate, n - 1) + l.rate;
    }
  }

  lemma {:induction false} LevelIsTicked(l: Limits, b: Bucket, e: Eager, now: int)
    requires l.Steady() && Valid(l, b) && Matches(l, b, e)
    ensures Level(l, b, now) == Tick(l, e.tokens, Max(0, now - e.clock))
  {
    hide Gain;
    var n := Max(0, now - e.clock);
    TickClosedForm(l, e.tokens, n);
    hide Tick;
    GainZero(l.rate);
    GainMono(l.rate, 0, n);
    if b.Stored? && now >= b.deadline {
      SteadyGain(l);
      GainMono(l.rate, BUCKET_TTL, n);
    }
  }

  /** Refinement: for every call sequence and any clock, even one that steps back, the lazy
      script with key expiry gives the eager bucket's decisions and token counts. */
  lemma {:induction false} LazyRefinesEager(l: Limits, b: Bucket, e: Eager, calls: seq<Call>)
    requires l.Steady() && Valid(l, b) && Matches(l, b, e)
    ensures Decisions(l, b, calls) == EagerDecisions(l, e, calls)
    ensures Matches(l, BucketAfter(l, b, calls), EagerAfter(l, e, calls))
  {
    if calls != [] {
      var n := |calls| - 1;
      LazyRefinesEager(l, b, e, calls[..n]);
      AfterIsValid(l, b, calls[..n]);
      LevelIsTicked(l, BucketAfter(l, b, calls[..n]), EagerAfter(l, e, calls[..n]), calls[n].now);
    }
  }

  /** Drain the bucket, then drain it again at time `t`. */
  function Twice(l: Limits, t: int): seq<Call> {
    [Call(0, l.capacity), Call(t, l.capacity)]
  }

  /** Without `Steady` the key expires before the bucket has refilled, and is recreated full. */
  lemma {:induction false} TwiceAtExpiry(l: Limits)
    requires !l.Steady()
    ensures BucketAfter(l, Missing, Twice(l, BUCKET_TTL)[..1]) == Stored(0, 0, BUCKET_TTL)
    ensures Decisions(l, Missing, Twice(l, BUCKET_TTL))
            == [Decision(true, 0, After(0.0)), Decision(true, 0, After(0.0))]
  {
    var first := Call(0, l.capacity);
    Snoc(l, Missing, [], first);
    Snoc(l, Missing, [first], Call(BUCKET_TTL, l.capacity));
    assert [] + [first] == [first];
    assert Twice(l, BUCKET_TTL) == [first] + [Call(BUCKET_TTL, l.capacity)];
  }

  /** Exactly when the lazy bucket is the eager one on every run from a fresh key. */
  lemma {:induction false} RefinementIff(l: Limits)
    ensures (forall calls: seq<Call> :: Decisions(l, Missing, calls) == EagerDecisions(l, Eager(l.Full(), 0), calls))
            <==> l.Steady()
  {
    if l.Steady() {
      forall calls: seq<Call> ensures Decisions(l, Missing, calls) == EagerDecisions(l, Eager(l.Full(), 0), calls) {
        LazyRefinesEager(l, Missing, Eager(l.Full(), 0), calls);
      }
    } else {
      TwiceAtExpiry(l);
      var calls, e := Twice(l, BUCKET_TTL), Eager(l.Full(), 0);
      assert calls[..1][..0] == [] && calls[..1] == [calls[0]];
      assert EagerAfter(l, e, calls[..1]) == Eager(0, 0);
      SteadyGain(l);
      TickClosedForm(l, 0, BUCKET_TTL);
      assert !EagerDecisions(l, e, calls)[1].allowed;
    }
  }

  /** One call in the ledger: the refill since the last call is kept, spilled or spent. */
  lemma {:induction false} LedgerStep(l: Limits, tokens: int, ticks: nat, cost: nat, travel: int)
    requires 0 <= tokens <= l.Full()
    ensures var level := Tick(l, tokens, ticks);
            var d := Decide(l, level, cost);
            tokens + Gain(l.rate, travel + ticks) ==
            Gain(l.rate, travel) + (if d.allowed then cost else 0) * MICRO + TickSpill(l, tokens, ticks) + d.remaining
            && 0 <= d.remaining <= l.Full() && 0 <= TickSpill(l, tokens, ticks)
  {
    hide Gain, Hint;
    TickClosedForm(l, tokens, ticks);
    hide Tick, TickSpill;
    GainAdds(l.rate, travel, ticks);
  }

  /** What the bucket started with plus what the clock refilled is what was admitted plus what
      the clamp spilled plus what is left, and what is left is within the bucket. */
  predicate Balances(l: Limits, e: Eager, calls: seq<Call>, ds: seq<Decision>)
    requires |calls| == |ds|
  {
    var left := EagerAfter(l, e, calls);
    && e.tokens + Gain(l.rate, Travel(e.clock, calls))
       == Charged(calls, ds) * MICRO + Spilled(l, e, calls) + left.tokens
    && 0 <= Spilled(l, e, calls) && 0 <= left.tokens <= l.Full()
    && left.clock == if calls == [] then e.clock else calls[|calls| - 1].now
  }

  /** Token ledger, on any clock. */
  lemma {:induction false} Ledger(l: Limits, b: Bucket, e: Eager, calls: seq<Call>)
    requires l.Steady() && Valid(l, b) && Matches(l, b, e) && 0 <= e.tokens <= l.Full()
    ensures Balances(l, e, calls, Decisions(l, b, calls))
  {
    hide *;
    LazyRefinesEager(l, b, e, calls);
    EagerLedger(l, e, calls);
  }

  lemma {:induction false} EagerLedger(l: Limits, e: Eager, calls: seq<Call>)
    requires 0 <= e.tokens <= l.Full()
    ensures Balances(l, e, calls, EagerDecisions(l, e, calls))
  {
    if calls == [] {
      GainZero(l.rate);
      return;
    }
    hide *;
    var n := |calls| - 1;
    EagerLedger(l, e, calls[..n]);
    EagerLedgerStep(l, e, calls[..n], calls[n]);
    assert calls[..n] + [calls[n]] == calls;
  }

  /** Drained twice within its hour, an unsteady bucket has given out more than it earned. */
  lemma {:induction false} TwiceUnbalances(l: Limits)
    requires !l.Steady()
    ensures !Balances(l, Eager(l.Full(), 0), Twice(l, BUCKET_TTL), Decisions(l, Missing, Twice(l, BUCKET_TTL)))
  {
    TwiceAtExpiry(l);
    var a, z := Call(0, l.capacity), Call(BUCKET_TTL, l.capacity);
    var e, d := Eager(l.Full(), 0), Decision(true, 0, After(0.0));
    SteadyGain(l);
    TickClosedForm(l, 0, BUCKET_TTL);
    assert [] + [a] == [a] && [a] + [z] == Twice(l, BUCKET_TTL) && [] + [d] == [d];
    assert Twice(l, BUCKET_TTL)[..1] == [a] && [a][..0] == [];
    assert EagerAfter(l, e, [a]) == Eager(0, 0) && Travel(0, [a]) == 0 && Spilled(l, e, [a]) == 0;
    hide Tick, TickSpill, Gain;
    ChargedSnoc([], [], a, d);
    ChargedSnoc([a], [d], z, d);
    assert Travel(0, Twice(l, BUCKET_TTL)) == BUCKET_TTL;
  }

  /** The ledger balances on every run from a full bucket if and only if the limits are
      steady. */
  lemma {:induction false} LedgerIff(l: Limits)
    ensures (forall calls: seq<Call>, clock :: Balances(l, Eager(l.Full(), clock), calls, Decisions(l, Missing, calls)))
            <==> l.Steady()
  {
    if l.Steady() {
      forall calls: seq<Call>, clock ensures Balances(l, Eager(l.Full(), clock), calls, Decisions(l, Missing, calls)) {
        Ledger(l, Missing, Eager(l.Full(), clock), calls);
      }
    } else {
      TwiceUnbalances(l);
    }
  }

  /** One more call of the eager bucket. */
  lemma {:induction false} EagerSnoc(l: Limits, e: Eager, init: seq<Call>, c: Call)
    ensures var calls, before := init + [c], EagerAfter(l, e, init);
            var last := if init == [] then e.clock else init[|init| - 1].now;
            var ticks := Max(0, c.now - before.clock);
            var d := Decide(l, Tick(l, before.tokens, ticks), c.cost);
            && EagerDecisions(l, e, calls) == EagerDecisions(l, e, init) + [d]
            && EagerAfter(l, e, calls) == Eager(d.remaining, c.now)
            && Spilled(l, e, calls) == Spilled(l, e, init) + TickSpill(l, before.tokens, ticks)
            && Travel(e.clock, calls) == Travel(e.clock, init) + Max(0, c.now - last)
  {
    hide Decide, Tick, TickSpill;
    var calls := init + [c];
    assert calls[..|init|] == init;
    if init != [] { assert calls[|init| - 1] == init[|init| - 1]; }
  }

  lemma {:induction false} EagerLedgerStep(l: Limits, e: Eager, init: seq<Call>, c: Call)
    requires Balances(l, e, init, EagerDecisions(l, e, init))
    ensures Balances(l, e, init + [c], EagerDecisions(l, e, init + [c]))
  {
    hide EagerAfter, EagerDecisions, Spilled, Travel, Charged, Decide, Tick, TickSpill, Gain;
    var before := EagerAfter(l, e, init);
    var ticks := Max(0, c.now - before.clock);
    EagerSnoc(l, e, init, c);
    ChargedSnoc(init, EagerDecisions(l, e, init), c, Decide(l, Tick(l, before.tokens, ticks), c.cost));
    LedgerStep(l, before.tokens, ticks, c.cost, Travel(e.clock, init));
  }

  // ---- Window bound ----

  predicate WithinBudget(l: Limits, calls: seq<Call>, s: int, t: int) {
    Spent(calls, Decisions(l, Missing, calls), s, t) * MICRO <= l.Full() + Gain(l.rate, t - s)
  }

  /** Tokens left or admitted by a call at `now` are covered by what was there at `last`. */
  lemma {:induction false} WindowStep(l: Limits, b: Bucket, now: int, cost: nat, s: int)
    requires l.Steady() && Valid(l, b) && (b.Stored? ==> b.lastRefill <= now) && s <= now
    ensures var d := Consume(l, b, now, cost).decision;
            var used := (if d.allowed then cost else 0) * MICRO + d.remaining;
            used <= l.Full() + Gain(l.rate, now - s) && 0 <= d.remaining
            && (b.Stored? ==> used + Gain(l.rate, b.lastRefill - s) <= b.tokens + Gain(l.rate, now - s))
  {
    LevelInRange(l, b, now);
    hide Gain, Hint, Level;
    GainZero(l.rate);
    GainMono(l.rate, 0, now - s);
    if b.Stored? {
      LevelIsTicked(l, b, Eager(b.tokens, b.lastRefill), now);
      TickClosedForm(l, b.tokens, now - b.lastRefill);
      GainAdds(l.rate, b.lastRefill - s, now - b.lastRefill);
    }
  }

  /** What is known of the window `[s, t]` when the latest call, if any, was at `last`. */
  predicate WindowState(l: Limits, any: bool, last: int, spent: nat, b: Bucket, s: int, t: int) {
    if !any || last < s then spent == 0
    else if last <= t then b.Stored? && spent * MICRO + b.tokens <= l.Full() + Gain(l.rate, last - s)
    else spent * MICRO <= l.Full() + Gain(l.rate, t - s)
  }

  lemma {:induction false} WindowGrows(l: Limits, any: bool, last: int, spent: nat, b: Bucket, c: Call, s: int, t: int)
    requires l.Steady() && Valid(l, b) && s <= t && WindowState(l, any, last, spent, b, s, t)
    requires any <==> b.Stored?
    requires any ==> b.lastRefill == last <= c.now
    ensures var after := Consume(l, b, c.now, c.cost);
            var more := if after.decision.allowed && s <= c.now <= t then c.cost else 0;
            WindowState(l, true, c.now, spent + more, after.bucket, s, t)
  {
    hide Gain, Hint, Level;
    GainZero(l.rate);
    GainMono(l.rate, 0, t - s);
    if any && s <= last <= t < c.now { GainMono(l.rate, last - s, t - s); }
    if s <= c.now { WindowStep(l, b, c.now, c.cost, s); }
  }

  lemma {:induction false} WindowInvariant(l: Limits, calls: seq<Call>, s: int, t: int)
    requires l.Steady() && Nondecreasing(calls) && s <= t
    ensures WindowState(l, calls != [], if calls == [] then 0 else calls[|calls| - 1].now,
                        Spent(calls, Decisions(l, Missing, calls), s, t), BucketAfter(l, Missing, calls), s, t)
  {
    if calls == [] { return; }
    var n := |calls| - 1;
    var init, c := calls[..n], calls[n];
    var b, spent := BucketAfter(l, Missing, init), Spent(init, Decisions(l, Missing, init), s, t);
    assert init == [] ==> b == Missing;
    hide BucketAfter, Decisions, Spent, Gain, Consume, WindowState;
    WindowInvariant(l, init, s, t);
    AfterIsValid(l, Missing, init);
    WindowGrows(l, n > 0, if n == 0 then 0 else calls[n - 1].now, spent, b, c, s, t);
    assert init + [c] == calls;
    SpentSnoc(init, Decisions(l, Missing, init), c, Consume(l, b, c.now, c.cost).decision, s, t);
    Snoc(l, Missing, init, c);
  }

  lemma {:induction false} WindowDone(l: Limits, any: bool, last: int, spent: nat, b: Bucket, s: int, t: int)
    requires Valid(l, b) && s <= t && WindowState(l, any, last, spent, b, s, t)
    ensures spent * MICRO <= l.Full() + Gain(l.rate, t - s)
  {
    hide Gain;
    GainZero(l.rate);
    GainMono(l.rate, 0, t - s);
    if any && s <= last <= t { GainMono(l.rate, last - s, t - s); }
  }

  lemma {:induction false} WindowStays(l: Limits, calls: seq<Call>, s: int, t: int)
    requires l.Steady() && Nondecreasing(calls) && s <= t
    ensures WithinBudget(l, calls, s, t)
  {
    WindowInvariant(l, calls, s, t);
    AfterIsValid(l, Missing, calls);
    hide BucketAfter, Decisions, Spent, WindowState;
    WindowDone(l, calls != [], if calls == [] then 0 else calls[|calls| - 1].now,
               Spent(calls, Decisions(l, Missing, calls), s, t), BucketAfter(l, Missing, calls), s, t);
  }

  /** Two drains in one key lifetime overspend the window when limits are not steady. */
  lemma {:induction false} TwiceOverspends(l: Limits)
    requires !l.Steady()
    ensures !WithinBudget(l, Twice(l, BUCKET_TTL), 0, BUCKET_TTL)
  {
    TwiceAtExpiry(l);
    var d := Decision(true, 0, After(0.0));
    SpentSnoc([], [], Call(0, l.capacity), d, 0, BUCKET_TTL);
    SpentSnoc([Call(0, l.capacity)], [d], Call(BUCKET_TTL, l.capacity), d, 0, BUCKET_TTL);
    assert [] + [Call(0, l.capacity)] == [Call(0, l.capacity)] && [] + [d] == [d] && [d] + [d] == [d, d];
    assert [Call(0, l.capacity)] + [Call(BUCKET_TTL, l.capacity)] == Twice(l, BUCKET_TTL);
  }

  /** On a nondecreasing clock every window of every run stays within burst plus refill,
      whatever keys expire and are recreated, exactly when the limits are steady. */
  lemma {:induction false} WindowBoundIff(l: Limits)
    ensures (forall calls: seq<Call>, s, t | Nondecreasing(calls) && s <= t :: WithinBudget(l, calls, s, t))
            <==> l.Steady()
  {
    if l.Steady() {
      forall calls: seq<Call>, s, t | Nondecreasing(calls) && s <= t ensures WithinBudget(l, calls, s, t) {
        WindowStays(l, calls, s, t);
      }
    } else {
      TwiceOverspends(l);
      assert Nondecreasing(Twice(l, BUCKET_TTL));
    }
  }

  /** Drain at the end of an hour, ask again at its start, and again at its end. */
  function BackAndForth(l: Limits): seq<Call> {
    [Call(BUCKET_TTL, l.capacity), Call(0, l.capacity), Call(BUCKET_TTL, l.capacity)]
  }

  /** The refused call in the middle moves `last_refill` and the expiry back with the clock, so
      the same hour fills the bucket a second time. */
  lemma {:induction false} BackAndForthRefills(l: Limits)
    requires l.capacity > 0
    ensures Decisions(l, Missing, BackAndForth(l))
            == [Decision(true, 0, After(0.0)), Decision(false, 0, Hint(l.rate, l.Full())),
                Decision(true, 0, After(0.0))]
    ensures !Decisions(l, Missing, [BackAndForth(l)[0], BackAndForth(l)[2]])[1].allowed
    ensures |BackAndForth(l)| == 3
  {
    var a, z := Call(BUCKET_TTL, l.capacity), Call(0, l.capacity);
    GainZero(l.rate);
    assert Consume(l, Missing, a.now, a.cost).bucket == Stored(0, BUCKET_TTL, 2 * BUCKET_TTL);
    assert Consume(l, Stored(0, BUCKET_TTL, 2 * BUCKET_TTL), z.now, z.cost).bucket == Stored(0, 0, BUCKET_TTL);
    hide Hint, Gain;
    Snoc(l, Missing, [], a);
    Snoc(l, Missing, [a], z);
    Snoc(l, Missing, [a, z], a);
    Snoc(l, Missing, [a], a);
    assert [] + [a] == [a] && [a] + [z] == [a, z] && [a, z] + [a] == [a, z, a] && [a] + [a] == [a, a];
  }

  lemma {:induction false} BackAndForthOverspends(l: Limits)
    requires l.capacity > 0
    ensures !WithinBudget(l, BackAndForth(l), BUCKET_TTL, BUCKET_TTL)
  {
    BackAndForthRefills(l);
    GainZero(l.rate);
    var calls, ds := BackAndForth(l), Decisions(l, Missing, BackAndForth(l));
    hide Decisions, Spent, Hint, Gain;
    SpentSnoc([], [], calls[0], ds[0], BUCKET_TTL, BUCKET_TTL);
    SpentSnoc([calls[0]], [ds[0]], calls[1], ds[1], BUCKET_TTL, BUCKET_TTL);
    SpentSnoc([calls[0], calls[1]], [ds[0], ds[1]], calls[2], ds[2], BUCKET_TTL, BUCKET_TTL);
    assert [] + [calls[0]] == [calls[0]] && [calls[0]] + [calls[1]] == [calls[0], calls[1]];
    assert [calls[0], calls[1]] + [calls[2]] == calls && [] + [ds[0]] == [ds[0]];
    assert [ds[0]] + [ds[1]] == [ds[0], ds[1]] && [ds[0], ds[1]] + [ds[2]] == ds;
  }

  /** A bucket that holds nothing decides by the cost alone. */
  lemma {:induction false} EmptyBucketDecides(l: Limits, calls: seq<Call>, c: Call)
    requires l.capacity == 0
    ensures Consume(l, BucketAfter(l, Missing, calls), c.now, c.cost).decision == Decide(l, 0, c.cost)
  {
    hide Gain, Hint;
    AfterIsValid(l, Missing, calls);
    LevelInRange(l, BucketAfter(l, Missing, calls), c.now);
  }

  lemma {:induction false} EmptyBucketSpendsNothing(l: Limits, calls: seq<Call>, s: int, t: int)
    requires l.capacity == 0
    ensures Spent(calls, Decisions(l, Missing, calls), s, t) == 0
  {
    if calls != [] {
      var n := |calls| - 1;
      EmptyBucketSpendsNothing(l, calls[..n], s, t);
      EmptyBucketDecides(l, calls[..n], calls[n]);
      hide Consume, BucketAfter, Hint, Gain, Spent;
      Snoc(l, Missing, calls[..n], calls[n]);
      assert calls[..n] + [calls[n]] == calls;
      SpentSnoc(calls[..n], Decisions(l, Missing, calls[..n]), calls[n], Decide(l, 0, calls[n].cost), s, t);
    }
  }

  /** The clock condition is needed by every bucket: on arbitrary clocks the window bound holds
      for all runs only of a bucket that holds nothing. */
  lemma {:induction false} WindowNeedsForwardClock(l: Limits)
    ensures (forall calls: seq<Call>, s, t | s <= t :: WithinBudget(l, calls, s, t)) <==> l.capacity == 0
  {
    if l.capacity == 0 {
      forall calls: seq<Call>, s, t | s <= t ensures WithinBudget(l, calls, s, t) {
        EmptyBucketSpendsNothing(l, calls, s, t);
        GainZero(l.rate);
        GainMono(l.rate, 0, t - s);
      }
    } else {
      BackAndForthOverspends(l);
    }
  }

  // ---- Rejected calls are invisible ----

  ghost predicate AgreeFrom(l: Limits, b: Bucket, c: Bucket, now: int) {
    forall t :: t >= now ==> Level(l, b, t) == Level(l, c, t)
  }

  /** Refill composes across a split interval, key expiry included. */
  lemma {:induction false} LevelComposes(l: Limits, b: Bucket, x: int, y: int)
    requires l.Steady() && Valid(l, b) && x <= y && (b.Stored? ==> b.lastRefill <= x)
    ensures Level(l, b, y) == Min(l.Full(), Level(l, b, x) + Gain(l.rate, y - x))
    ensures Level(l, Stored(Level(l, b, x), x, x + BUCKET_TTL), y) == Level(l, b, y)
  {
    LevelInRange(l, b, x);
    hide Gain;
    GainZero(l.rate);
    GainMono(l.rate, 0, y - x);
    SteadyGain(l);
    if y - x >= BUCKET_TTL { GainMono(l.rate, BUCKET_TTL, y - x); }
    if b.Stored? {
      GainMono(l.rate, 0, x - b.lastRefill);
      GainAdds(l.rate, x - b.lastRefill, y - x);
      if y - b.lastRefill >= BUCKET_TTL { GainMono(l.rate, BUCKET_TTL, y - b.lastRefill); }
      if x - b.lastRefill >= BUCKET_TTL { GainMono(l.rate, BUCKET_TTL, x - b.lastRefill); }
    }
  }

  /** A rejection rewrites all three stored values and changes no later level. */
  lemma {:induction false} RejectionKeepsLevels(l: Limits, b: Bucket, now: int, cost: nat)
    requires l.Steady() && Valid(l, b) && (b.Stored? ==> b.lastRefill <= now)
    requires !Consume(l, b, now, cost).decision.allowed
    ensures AgreeFrom(l, Consume(l, b, now, cost).bucket, b, now)
  {
    hide Gain, Hint, Level;
    forall t | t >= now ensures Level(l, Consume(l, b, now, cost).bucket, t) == Level(l, b, t) {
      LevelComposes(l, b, now, t);
    }
  }

  predicate DropsOnlyRejections(keep: seq<bool>, ds: seq<Decision>) {
    |keep| == |ds| && forall i :: 0 <= i < |ds| && ds[i].allowed ==> keep[i]
  }

  lemma {:induction false} DroppingRejections(l: Limits, calls: seq<Call>, keep: seq<bool>)
    requires l.Steady() && Nondecreasing(calls) && DropsOnlyRejections(keep, Decisions(l, Missing, calls))
    ensures Decisions(l, Missing, Kept(calls, keep)) == Kept(Decisions(l, Missing, calls), keep)
    ensures AgreeFrom(l, BucketAfter(l, Missing, calls), BucketAfter(l, Missing, Kept(calls, keep)),
                      if calls == [] then 0 else calls[|calls| - 1].now)
  {
    hide Gain, Hint, Level;
    if calls != [] {
      var n := |calls| - 1;
      var ds := Decisions(l, Missing, calls);
      assert ds[..n] == Decisions(l, Missing, calls[..n]);
      assert forall i :: 0 <= i < n ==> keep[..n][i] == keep[i] && ds[..n][i] == ds[i];
      DroppingRejections(l, calls[..n], keep[..n]);
      AfterIsValid(l, Missing, calls[..n]);
      var all, some := BucketAfter(l, Missing, calls[..n]), BucketAfter(l, Missing, Kept(calls[..n], keep[..n]));
      if n == 0 { assert calls[..n] == []; } else { assert calls[..n][n - 1] == calls[n - 1]; }
      assert Level(l, all, calls[n].now) == Level(l, some, calls[n].now);
      if keep[n] {
        Snoc(l, Missing, Kept(calls[..n], keep[..n]), calls[n]);
      } else {
        RejectionKeepsLevels(l, all, calls[n].now, calls[n].cost);
        assert Kept(calls, keep) == Kept(calls[..n], keep[..n]);
        assert Kept(ds, keep) == Kept(ds[..n], keep[..n]);
      }
    }
  }

  predicate Invisible(l: Limits, calls: seq<Call>, keep: seq<bool>) {
    DropsOnlyRejections(keep, Decisions(l, Missing, calls)) ==>
      Decisions(l, Missing, Kept(calls, keep)) == Kept(Decisions(l, Missing, calls), keep)
  }

  /** Drain, fail just before the key would expire, fail again just after. */
  lemma {:induction false} RejectionPostponesExpiry(l: Limits)
    requires !l.Steady()
    ensures var calls := [Call(0, l.capacity), Call(BUCKET_TTL - 1, l.capacity), Call(BUCKET_TTL, l.capacity)];
            !Invisible(l, calls, [true, false, true])
  {
    var a, x, z := Call(0, l.capacity), Call(BUCKET_TTL - 1, l.capacity), Call(BUCKET_TTL, l.capacity);
    var calls, keep := [a] + [x] + [z], [true] + [false] + [true];
    ThreeAtExpiry(l);
    TwiceAtExpiry(l);
    var ds := Decisions(l, Missing, calls);
    KeptOfThree(a, x, z);
    KeptOfThree(ds[0], ds[1], ds[2]);
    assert ds == [ds[0]] + [ds[1]] + [ds[2]];
    assert Twice(l, BUCKET_TTL) == [a, z];
    assert calls == [a, x, z] && keep == [true, false, true];
  }

  lemma {:induction false} ThreeAtExpiry(l: Limits)
    requires !l.Steady()
    ensures var a, x, z := Call(0, l.capacity), Call(BUCKET_TTL - 1, l.capacity), Call(BUCKET_TTL, l.capacity);
            var ds := Decisions(l, Missing, [a] + [x] + [z]);
            |ds| == 3 && ds[0].allowed && !ds[1].allowed && !ds[2].allowed
  {
    var a, x, z := Call(0, l.capacity), Call(BUCKET_TTL - 1, l.capacity), Call(BUCKET_TTL, l.capacity);
    Snoc(l, Missing, [], a);
    Snoc(l, Missing, [a], x);
    Snoc(l, Missing, [a] + [x], z);
    assert [] + [a] == [a];
    SteadyGain(l);
    GainMono(l.rate, BUCKET_TTL - 1, BUCKET_TTL);
    GainZero(l.rate);
  }

  lemma {:induction false} KeptOfThree<T>(x: T, y: T, z: T)
    ensures Kept([x] + [y] + [z], [true] + [false] + [true]) == [x, z]
  {
    KeptSnoc([], [], x, true);
    KeptSnoc([x], [true], y, false);
    KeptSnoc([x] + [y], [true] + [false], z, true);
    assert [] + [x] == [x] && [] + [true] == [true];
  }

  /** Leaving out any rejected calls changes no other decision or token count, for every
      nondecreasing run, exactly when the limits are steady. */
  lemma {:induction false} RejectionsInvisibleIff(l: Limits)
    ensures (forall calls: seq<Call>, keep | Nondecreasing(calls) :: Invisible(l, calls, keep)) <==> l.Steady()
  {
    if l.Steady() {
      forall calls: seq<Call>, keep | Nondecreasing(calls) ensures Invisible(l, calls, keep) {
        if DropsOnlyRejections(keep, Decisions(l, Missing, calls)) { DroppingRejections(l, calls, keep); }
      }
    } else {
      RejectionPostponesExpiry(l);
    }
  }

  lemma {:induction false} EmptyBucketForgets(l: Limits, calls: seq<Call>, keep: seq<bool>)
    requires l.capacity == 0 && |keep| == |calls|
    ensures Decisions(l, Missing, Kept(calls, keep)) == Kept(Decisions(l, Missing, calls), keep)
  {
    if calls != [] {
      var n := |calls| - 1;
      var init, c, ds := calls[..n], calls[n], Decisions(l, Missing, calls[..n]);
      EmptyBucketForgets(l, init, keep[..n]);
      EmptyBucketDecides(l, init, c);
      EmptyBucketDecides(l, Kept(init, keep[..n]), c);
      hide Consume, BucketAfter, Decide, Hint, Gain, Kept, Decisions;
      Snoc(l, Missing, init, c);
      Snoc(l, Missing, Kept(init, keep[..n]), c);
      KeptSnoc(init, keep[..n], c, keep[n]);
      KeptSnoc(ds, keep[..n], Decide(l, 0, c.cost), keep[n]);
      assert init + [c] == calls && keep[..n] + [keep[n]] == keep;
      assert Decisions(l, Missing, calls) == ds + [Decide(l, 0, c.cost)];
      if !keep[n] {
        assert Kept(calls, keep) == Kept(init, keep[..n]);
        assert Kept(Decisions(l, Missing, calls), keep) == Kept(ds, keep[..n]);
      }
    }
  }

  lemma {:induction false} BackAndForthShows(l: Limits)
    requires l.capacity > 0
    ensures !Invisible(l, BackAndForth(l), [true, false, true])
  {
    BackAndForthRefills(l);
    var calls, ds, keep := BackAndForth(l), Decisions(l, Missing, BackAndForth(l)), [true] + [false] + [true];
    hide Decisions, Hint, Gain;
    KeptOfThree(calls[0], calls[1], calls[2]);
    KeptOfThree(ds[0], ds[1], ds[2]);
    assert calls == [calls[0]] + [calls[1]] + [calls[2]] && ds == [ds[0]] + [ds[1]] + [ds[2]];
    assert keep == [true, false, true];
  }

  /** So is it here: on arbitrary clocks rejected calls are invisible in all runs only of a
      bucket that holds nothing. */
  lemma {:induction false} RejectionsNeedForwardClock(l: Limits)
    ensures (forall calls: seq<Call>, keep :: Invisible(l, calls, keep)) <==> l.capacity == 0
  {
    if l.capacity == 0 {
      forall calls: seq<Call>, keep ensures Invisible(l, calls, keep) {
        if DropsOnlyRejections(keep, Decisions(l, Missing, calls)) { EmptyBucketForgets(l, calls, keep); }
      }
    } else {
      BackAndForthShows(l);
    }
  }

  // ---- Retry hint ----

  /** The `Retry-After` header of a refusal: `max(1, ceil(hint))` whole seconds. */
  function RetryHeader(seconds: real): int {
    Max(1, -((-seconds).Floor))
  }

  lemma {:induction false} RejectedRun(l: Limits, b: Bucket, calls: seq<Call>)
    requires l.Steady() && Valid(l, b) && Nondecreasing(calls)
    requires calls != [] ==> (b.Stored? ==> b.lastRefill <= calls[0].now)
    requires forall i :: 0 <= i < |calls| ==> !Decisions(l, b, calls)[i].allowed
    ensures calls != [] ==> AgreeFrom(l, BucketAfter(l, b, calls), b, calls[|calls| - 1].now)
  {
    if calls != [] {
      var n := |calls| - 1;
      var init, c := calls[..n], calls[n];
      assert init + [c] == calls;
      Snoc(l, b, init, c);
      assert forall i :: 0 <= i < n ==> Decisions(l, b, init)[i] == Decisions(l, b, calls)[i];
      assert !Decisions(l, b, calls)[n].allowed;
      AfterIsValid(l, b, init);
      hide Level, Consume, Decisions, BucketAfter;
      RejectedRun(l, b, init);
      if n > 0 { assert init[n - 1] == calls[n - 1]; } else { assert init == []; }
      RejectionKeepsLevels(l, BucketAfter(l, b, init), c.now, c.cost);
    }
  }

  lemma {:induction false} ThresholdArithmetic(rate: nat, d: int, deficit: int)
    requires rate > 0
    ensures Hint(rate, deficit).After?
    ensures d as real / MICRO as real >= Hint(rate, deficit).seconds <==> Gain(rate, d) >= deficit
  {
    var scale := (rate * MICRO) as real;
    var x, y := d as real / MICRO as real, deficit as real / scale;
    assert x * scale == (d * rate) as real by {
      assert x * MICRO as real == d as real;
      assert x * scale == x * MICRO as real * rate as real;
    }
    assert y * scale == deficit as real;
    if x >= y { assert x * scale >= y * scale; } else { assert x * scale < y * scale; }
  }

  lemma {:induction false} HeaderCoversHint(d: int, hint: real)
    requires d >= RetryHeader(hint) * MICRO
    ensures d as real / MICRO as real >= hint
  {
    assert RetryHeader(hint) as real >= hint;
    assert d as real / MICRO as real >= RetryHeader(hint) as real;
  }

  /** A rejection, only rejections after it, then a call of the same affordable cost. */
  predicate Retries(l: Limits, b: Bucket, first: Call, between: seq<Call>, last: Call) {
    (b.Stored? ==> b.lastRefill <= first.now) && Nondecreasing([first] + between + [last])
    && first.cost == last.cost <= l.capacity
    && forall i :: 0 <= i <= |between| ==> !Decisions(l, b, [first] + between)[i].allowed
  }

  /** The last call is admitted exactly when the first one's hint has passed, and so after its
      rounded header. */
  predicate HintIsExact(l: Limits, b: Bucket, first: Call, between: seq<Call>, last: Call) {
    var ds := Decisions(l, b, [first] + between + [last]);
    var hint := ds[0].retry;
    hint.After?
    && (ds[|between| + 1].allowed <==> (last.now - first.now) as real / MICRO as real >= hint.seconds)
    && (last.now - first.now >= RetryHeader(hint.seconds) * MICRO ==> ds[|between| + 1].allowed)
  }

  /** The hint is an exact threshold, rejected calls in between or not; waiting out the rounded
      header therefore suffices. */
  lemma {:induction false} RetryHintExact(l: Limits, b: Bucket, first: Call, between: seq<Call>, last: Call)
    requires l.Steady() && l.rate > 0 && Valid(l, b) && Retries(l, b, first, between, last)
    ensures HintIsExact(l, b, first, between, last)
  {
    hide Gain, Hint, Level, RetryHeader;
    var calls := [first] + between;
    assert forall i :: 0 <= i < |calls| ==> calls[i] == (calls + [last])[i];
    RejectedRun(l, b, calls);
    Snoc(l, b, calls, last);
    AfterIsValid(l, b, calls);
    assert calls[|between|].now <= last.now by {
      assert (calls + [last])[|between|].now <= (calls + [last])[|between| + 1].now;
    }
    FirstDecision(l, b, calls + [last]);
    FirstDecision(l, b, calls);
    assert first.now <= last.now by { assert (calls + [last])[0].now <= (calls + [last])[|between| + 1].now; }
    var price, level, d := first.cost * MICRO, Level(l, b, first.now), last.now - first.now;
    assert level < price && Decisions(l, b, calls + [last])[0].retry == Hint(l.rate, price - level);
    assert Level(l, BucketAfter(l, b, calls), last.now) == Level(l, b, last.now);
    hide Decisions, BucketAfter;
    LevelComposes(l, b, first.now, last.now);
    ThresholdArithmetic(l.rate, d, price - level);
    var hint := Hint(l.rate, price - level).seconds;
    if d >= RetryHeader(hint) * MICRO { HeaderCoversHint(d, hint); }
  }

  lemma {:induction false} FirstDecision(l: Limits, b: Bucket, calls: seq<Call>)
    requires calls != []
    ensures Decisions(l, b, calls)[0] == Consume(l, b, calls[0].now, calls[0].cost).decision
  {
    if |calls| > 1 {
      FirstDecision(l, b, calls[..|calls| - 1]);
    } else {
      assert calls[..0] == [];
    }
  }

  /** An unsteady bucket hints at more than an hour, and is full when the hour is over. */
  lemma {:induction false} HintTooLong(l: Limits)
    requires !l.Steady() && l.rate > 0
    ensures var b, first, last := Stored(0, 0, BUCKET_TTL), Call(0, l.capacity), Call(BUCKET_TTL, l.capacity);
            BucketAfter(l, Missing, [first]) == b && Retries(l, b, first, [], last)
            && !HintIsExact(l, b, first, [], last)
  {
    var b, first, last := Stored(0, 0, BUCKET_TTL), Call(0, l.capacity), Call(BUCKET_TTL, l.capacity);
    GainZero(l.rate);
    Snoc(l, Missing, [], first);
    assert [] + [first] == [first] && [first] + [] == [first] && [first] + [last] == [first] + [] + [last];
    Snoc(l, b, [], first);
    Snoc(l, b, [first], last);
    SteadyGain(l);
    ThresholdArithmetic(l.rate, BUCKET_TTL, l.Full());
  }

  /** The hint is exact on every run on a forward clock if and only if the limits are
      steady. */
  lemma {:induction false} RetryHintIff(l: Limits)
    requires l.rate > 0
    ensures (forall before: seq<Call>, first, between: seq<Call>, last |
               Nondecreasing(before) && Retries(l, BucketAfter(l, Missing, before), first, between, last) ::
               HintIsExact(l, BucketAfter(l, Missing, before), first, between, last))
            <==> l.Steady()
  {
    if l.Steady() {
      forall before: seq<Call>, first, between: seq<Call>, last |
        Nondecreasing(before) && Retries(l, BucketAfter(l, Missing, before), first, between, last)
        ensures HintIsExact(l, BucketAfter(l, Missing, before), first, between, last)
      {
        AfterIsValid(l, Missing, before);
        RetryHintExact(l, BucketAfter(l, Missing, before), first, between, last);
      }
    } else {
      HintTooLong(l);
      assert Nondecreasing([Call(0, l.capacity)]);
    }
  }
}
