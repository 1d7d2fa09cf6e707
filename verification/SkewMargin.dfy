/** The in-flight cap under clock skew holds exactly up to a slot lifetime less twice the skew:
    beyond that, a run of the platform has one running heavy view more than the plan allows. */
module SkewMargin {
  import opened TenantPlan
  import opened KeySchema
  import opened RedisStore
  import opened Program
  import opened Platform
  import opened Admission
  import opened Passage
  import Bucket = TokenBucket
  import Semaphore

  function Cap(tenant: string): nat {
    PlanFor(tenant).maxConcurrency
  }

  /** A calculate request: what its body says does not matter here. */
  function Job(tenant: string): Request {
    Request(tenant, CALCULATE, Malformed)
  }

  /** The clock of the crowd's requests: the plan's cap of them at time 0 on a clock that is
      behind, and one more at `late` on a clock that is ahead. */
  function ClockOf(cap: nat, eps: nat, late: nat, r: nat): (int, int) {
    if r < cap then (0, 0 - eps) else (late, late + eps)
  }

  /** Each request passes the rate gate, reads its clock and runs the slot script, without any
      fault. */
  function CrowdItem(cap: nat, eps: nat, late: nat, i: nat): Item {
    var (now, host) := ClockOf(cap, eps, late, i / 3);
    Item(i / 3, Input(now, NoFault, host, Semaphore.Name(i)))
  }

  function Crowd(cap: nat, eps: nat, late: nat): seq<Item> {
    seq(3 * (cap + 1), (i: nat) => CrowdItem(cap, eps, late, i))
  }

  function Waiting(tenant: string): Sys {
    var rids := Semaphore.Range(0, Cap(tenant) + 1);
    Sys(map[], map r: nat | r in rids :: Arrive(Job(tenant)), [])
  }

  lemma {:induction false} CrowdIsHonest(tenant: string, eps: nat, late: nat)
    ensures var items := Crowd(Cap(tenant), eps, late);
            Initial(Waiting(tenant)) && FreshIds(items) && Forward(items) && Skewed(items, eps)
  {
    hide PlanFor, Semaphore.Name, Semaphore.Range;
    var items := Crowd(Cap(tenant), eps, late);
    forall i, j | 0 <= i < j < |items| ensures items[i].input.uuid != items[j].input.uuid {
      Semaphore.NamesDiffer(i, j);
    }
  }

  /** One request's way through both gates, in three steps. */
  lemma {:induction false} OneEnters(sys: Sys, rid: nat, tenant: string, a: Input, b: Input, c: Input)
    requires tenant != "" && rid in sys.reqs && sys.reqs[rid] == Arrive(Job(tenant))
    requires a.fault.NoFault? && b.fault.NoFault? && c.fault.NoFault?
    requires Admits(Get(sys.store, Render(RateLimit(tenant))), tenant, CALCULATE, a.now)
    requires HasRoom(Seen(Get(sys.store, Render(Concurrency(tenant))), c.now), Cap(tenant), b.host)
    ensures var after := Step(Step(Step(sys, Item(rid, a)), Item(rid, b)), Item(rid, c));
            var key := Render(Concurrency(tenant));
            && after.reqs.Keys == sys.reqs.Keys
            && (forall q :: q in sys.reqs && q != rid ==> after.reqs[q] == sys.reqs[q])
            && after.reqs[rid].call == Job(tenant)
            && after.reqs[rid].phase == InView(Entering, Held(b.uuid, b.host, b.now))
            && Get(after.store, key) == Exec(Get(sys.store, key), Acquire(Cap(tenant), b.host, b.uuid), c.now).cell
            && Get(after.store, Render(RateLimit(tenant))) == Charged(sys, tenant, a.now)
  {
    hide LocalStep, Render, Exec, PlanFor, HasRoom, Admits, Seen, Get, LimitsOf, CostOf;
    var call, waiting := Job(tenant), Req(Job(tenant), Acquiring(b.uuid, b.host, b.now), NO_MARKS);
    PaysRate(sys.store, call, a);
    RateKeyOnly(sys.store, call, a);
    var charged := LocalStep(sys.store, Arrive(call), a).store;
    Samples(charged, call, b);
    SlotAdmits(charged, waiting, c);
    SlotKeyOnly(charged, waiting, c);
  }

  /** What a calculate leaves of the bucket. */
  function Charged(sys: Sys, tenant: string, now: int): Cell {
    Exec(Get(sys.store, Render(RateLimit(tenant))), Consume(LimitsOf(tenant), CostOf(CALCULATE)), now).cell
  }

  lemma {:induction false} RateKeyOnly(s: Store, call: Request, inp: Input)
    ensures Get(LocalStep(s, Arrive(call), inp).store, Render(Concurrency(call.tenant)))
            == Get(s, Render(Concurrency(call.tenant)))
  {
    FamilyLetters(RateLimit(call.tenant));
    FamilyLetters(Concurrency(call.tenant));
    hide LocalStep, Render, LimitsOf, CostOf, ShouldGuard;
    OthersUntouched(s, Arrive(call), inp, Concurrency(call.tenant));
  }

  lemma {:induction false} SlotKeyOnly(s: Store, r: Req, inp: Input)
    requires r.phase.Acquiring?
    ensures Get(LocalStep(s, r, inp).store, Render(RateLimit(r.call.tenant)))
            == Get(s, Render(RateLimit(r.call.tenant)))
  {
    FamilyLetters(RateLimit(r.call.tenant));
    FamilyLetters(Concurrency(r.call.tenant));
    hide LocalStep, Render, PlanFor;
    OthersUntouched(s, r, inp, RateLimit(r.call.tenant));
  }

  /** The bucket after `j` calculates at time 0. */
  function BucketOf(tenant: string, j: nat): Bucket.Bucket {
    if j == 0 then Bucket.Missing
    else Bucket.Stored(LimitsOf(tenant).Full() - j * (CostOf(CALCULATE) * MICRO), 0, Bucket.BUCKET_TTL)
  }

  /** Every plan's burst covers its cap of calculates and one more. */
  lemma {:induction false} BurstCoversCap(tenant: string)
    ensures CostOf(CALCULATE) == 10 && 10 * (Cap(tenant) + 1) <= LimitsOf(tenant).capacity
  {
  }

  lemma {:induction false} BurstLasts(tenant: string, j: nat, late: nat)
    requires j <= Cap(tenant)
    ensures var c := BucketCell(BucketOf(tenant, j));
            && Admits(c, tenant, CALCULATE, 0) && Admits(c, tenant, CALCULATE, late)
            && Exec(c, Consume(LimitsOf(tenant), CostOf(CALCULATE)), 0).cell == BucketCell(BucketOf(tenant, j + 1))
  {
    BurstCoversCap(tenant);
    hide PlanFor, CostOf, Cap, Exec, BucketCell, Bucket.Gain;
    var l := LimitsOf(tenant);
    ConsumeIsBucketStep(l, BucketOf(tenant, j), 0, CostOf(CALCULATE));
    ConsumeIsBucketStep(l, BucketOf(tenant, j), late, CostOf(CALCULATE));
    Bucket.GainZero(l.rate);
    Bucket.GainMono(l.rate, 0, late);
    hide LimitsOf;
    assert (j + 1) * (10 * MICRO) == j * (10 * MICRO) + 10 * MICRO;
  }

  /** The slot set after `j` of the first requests: at most that many members, all stamped on
      the clock that is behind. */
  predicate Filled(c: Cell, eps: nat, j: nat) {
    if j == 0 then c == Absent
    else c.Present? && c.value.ZSet? && c.expiry == At(SIXTY_SECONDS) && |c.value.members| <= j
         && forall id :: id in c.value.members ==> c.value.members[id] == 0 - eps
  }

  lemma {:induction false} FilledOneMore(c: Cell, eps: nat, j: nat, capacity: nat, id: string)
    requires Filled(c, eps, j) && j < capacity
    ensures HasRoom(Seen(c, 0), capacity, 0 - eps)
    ensures Filled(Exec(c, Acquire(capacity, 0 - eps, id), 0).cell, eps, j + 1)
  {
    var found := if c.Absent? then map[] else c.value.members;
    var kept := Semaphore.Evict(found, 0 - eps - SIXTY_SECONDS);
    assert kept.Keys <= found.Keys;
    Semaphore.SubsetCard(kept.Keys, found.Keys);
    assert |kept| == |kept.Keys| && |found| == |found.Keys|;
    assert kept[id := 0 - eps].Keys == kept.Keys + {id} && |kept[id := 0 - eps]| == |kept[id := 0 - eps].Keys|;
    assert |kept.Keys + {id}| <= |kept.Keys| + 1;
    assert id in kept[id := 0 - eps];
  }

  lemma {:induction false} AllAreStale(c: Cell, eps: nat, j: nat, capacity: nat, late: nat)
    requires Filled(c, eps, j) && capacity > 0 && late >= Margin(eps)
    ensures HasRoom(Seen(c, late), capacity, late + eps)
  {
    var found := match Seen(c, late) case Absent => map[] case Present(v, _) => v.members;
    assert Semaphore.Evict(found, late + eps - SIXTY_SECONDS) == map[];
  }

  /** The crowd after `j` requests have entered. */
  ghost predicate Entered(sys: Sys, tenant: string, eps: nat, j: nat) {
    && (forall r: nat :: r in sys.reqs <==> r < Cap(tenant) + 1)
    && (forall r: nat :: r < j && r in sys.reqs ==> sys.reqs[r].call == Job(tenant) && HoldOf(sys.reqs[r].phase).Held?)
    && (forall r: nat :: j <= r && r in sys.reqs ==> sys.reqs[r] == Arrive(Job(tenant)))
    && (j <= Cap(tenant) ==> Filled(Get(sys.store, Render(Concurrency(tenant))), eps, j)
                             && Get(sys.store, Render(RateLimit(tenant))) == BucketCell(BucketOf(tenant, j)))
  }

  lemma {:induction false} NextEnters(sys: Sys, tenant: string, eps: nat, late: nat, j: nat)
    requires tenant != "" && Entered(sys, tenant, eps, j) && j <= Cap(tenant) && Cap(tenant) > 0 && late >= Margin(eps)
    ensures var cap, i := Cap(tenant), 3 * j;
            Entered(Step(Step(Step(sys, CrowdItem(cap, eps, late, i)), CrowdItem(cap, eps, late, i + 1)),
                         CrowdItem(cap, eps, late, i + 2)), tenant, eps, j + 1)
  {
    hide Step, Render, Exec, PlanFor, HasRoom, Filled, Margin, Semaphore.Name, Cap, Admits, BucketOf, BucketCell, Get,
         LimitsOf, CostOf;
    BurstLasts(tenant, j, late);
    var cap, c := Cap(tenant), Get(sys.store, Render(Concurrency(tenant)));
    var (now, host) := ClockOf(cap, eps, late, j);
    assert 3 * j / 3 == j && (3 * j + 1) / 3 == j && (3 * j + 2) / 3 == j;
    if j < cap { FilledOneMore(c, eps, j, cap, Semaphore.Name(3 * j + 1)); } else { AllAreStale(c, eps, j, cap, late); }
    OneEnters(sys, j, tenant, CrowdItem(cap, eps, late, 3 * j).input, CrowdItem(cap, eps, late, 3 * j + 1).input,
              CrowdItem(cap, eps, late, 3 * j + 2).input);
  }

  lemma {:induction false} CrowdEnters(tenant: string, eps: nat, late: nat, j: nat)
    requires tenant != "" && j <= Cap(tenant) + 1 && Cap(tenant) > 0 && late >= Margin(eps)
    ensures Entered(State(Waiting(tenant), Crowd(Cap(tenant), eps, late), 3 * j), tenant, eps, j)
  {
    hide Step, Render, Margin, CrowdItem, Cap, Entered, PlanFor;
    var start, items := Waiting(tenant), Crowd(Cap(tenant), eps, late);
    if j == 0 {
      NobodyEntered(tenant, eps, items);
    } else {
      CrowdEnters(tenant, eps, late, j - 1);
      NextEnters(State(start, items, 3 * (j - 1)), tenant, eps, late, j - 1);
      ThreeSteps(start, items, 3 * (j - 1));
    }
  }

  lemma {:induction false} NobodyEntered(tenant: string, eps: nat, items: seq<Item>)
    ensures Entered(State(Waiting(tenant), items, 0), tenant, eps, 0)
  {
    hide PlanFor;
  }

  /** Clock reads lie within the schedule. */
  ghost predicate ReadAfter(sys: Sys, from: int) {
    forall r :: r in sys.reqs ==>
      (sys.reqs[r].phase.Acquiring? ==> sys.reqs[r].phase.sampledAt >= from)
      && (HoldOf(sys.reqs[r].phase).Held? ==> HoldOf(sys.reqs[r].phase).sampledAt >= from)
  }

  lemma {:induction false} ReadsFollowSchedule(start: Sys, items: seq<Item>, n: nat, from: int)
    requires Initial(start) && n <= |items| && forall i :: 0 <= i < |items| ==> items[i].input.now >= from
    ensures ReadAfter(State(start, items, n), from)
  {
    if n == 0 { return; }
    ReadsFollowSchedule(start, items, n - 1, from);
    hide State, LocalStep;
    StateNext(start, items, n);
    var sys, item := State(start, items, n - 1), items[n - 1];
    if item.rid in sys.reqs { HoldStep(sys.store, sys.reqs[item.rid], item.input); }
  }

  lemma {:induction false} CrowdIsTimely(tenant: string, eps: nat, late: nat, limit: int)
    requires late < limit
    ensures Timely(Waiting(tenant), Crowd(Cap(tenant), eps, late), tenant, limit)
  {
    var start, items := Waiting(tenant), Crowd(Cap(tenant), eps, late);
    CrowdIsHonest(tenant, eps, late);
    hide State, Initial, FreshIds, Forward, Skewed, Cap, Semaphore.Name;
    forall k | 0 <= k < |items| ensures TimelyAt(State(start, items, k), tenant, items[k].input.now, limit) {
      ReadsFollowSchedule(start, items, k, 0);
    }
  }

  lemma {:induction false} CrowdExceeds(tenant: string, eps: nat, late: nat)
    requires tenant != "" && late >= Margin(eps)
    ensures var start, items := Waiting(tenant), Crowd(Cap(tenant), eps, late);
            |Holders(State(start, items, |items|), tenant)| > Cap(tenant)
  {
    hide *;
    var items := Crowd(Cap(tenant), eps, late);
    CapIsPositive(tenant);
    CrowdSize(Cap(tenant), eps, late);
    CrowdEnters(tenant, eps, late, Cap(tenant) + 1);
    AllHold(State(Waiting(tenant), items, |items|), tenant, eps);
  }

  lemma {:induction false} CapIsPositive(tenant: string)
    ensures Cap(tenant) > 0
  {
  }

  lemma {:induction false} CrowdSize(cap: nat, eps: nat, late: nat)
    ensures |Crowd(cap, eps, late)| == 3 * (cap + 1)
  {
    hide CrowdItem;
  }

  lemma {:induction false} AllHold(sys: Sys, tenant: string, eps: nat)
    requires Entered(sys, tenant, eps, Cap(tenant) + 1)
    ensures |Holders(sys, tenant)| > Cap(tenant)
  {
    hide Cap, Render, Get, Filled;
    Semaphore.SubsetCard(Semaphore.Range(0, Cap(tenant) + 1), Holders(sys, tenant));
  }

  ghost predicate HonestRun(start: Sys, items: seq<Item>, eps: nat) {
    Initial(start) && FreshIds(items) && Forward(items) && Skewed(items, eps)
  }

  predicate WithinCap(start: Sys, items: seq<Item>, n: nat, tenant: string)
    requires n <= |items|
  {
    |Holders(State(start, items, n), tenant)| <= Cap(tenant)
  }

  /** For every tenant, skew and time limit: in all runs whose holders release within the
      limit the holders stay within the plan's cap, if and only if the limit is at most 60 s
      less twice the skew. */
  lemma {:induction false} MarginIff(tenant: string, eps: nat, limit: int)
    requires tenant != "" && limit > 0
    ensures (forall start: Sys, items: seq<Item>, n: nat |
               HonestRun(start, items, eps) && Timely(start, items, tenant, limit) && n <= |items| ::
               WithinCap(start, items, n, tenant))
            <==> limit <= 60_000_000 - 2 * eps
  {
    if limit <= Margin(eps) {
      forall start: Sys, items: seq<Item>, n: nat |
        HonestRun(start, items, eps) && Timely(start, items, tenant, limit) && n <= |items|
        ensures WithinCap(start, items, n, tenant)
      {
        TimelyWithin(start, items, tenant, limit, Margin(eps));
        InFlightBound(start, items, n, tenant, eps);
      }
    } else {
      var late: nat := if Margin(eps) > 0 then Margin(eps) else 0;
      CrowdIsHonest(tenant, eps, late);
      CrowdIsTimely(tenant, eps, late, limit);
      CrowdExceeds(tenant, eps, late);
      var items := Crowd(Cap(tenant), eps, late);
      assert !WithinCap(Waiting(tenant), items, |items|, tenant);
    }
  }

  lemma {:induction false} TimelyWithin(start: Sys, items: seq<Item>, tenant: string, limit: int, longer: int)
    requires Timely(start, items, tenant, limit) && limit <= longer
    ensures Timely(start, items, tenant, longer)
  {
    hide State;
    forall k | 0 <= k < |items| ensures TimelyAt(State(start, items, k), tenant, items[k].input.now, longer) {
      assert TimelyAt(State(start, items, k), tenant, items[k].input.now, limit);
    }
  }
}
