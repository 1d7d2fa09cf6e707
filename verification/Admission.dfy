/** The two gates over whole runs: slot ownership, the in-flight cap under clock skew, faults
    and crashes, and the platform-wide cap. */
module Admission {
  import opened TenantPlan
  import opened KeySchema
  import opened RedisStore
  import opened Program
  import opened Platform
  import Semaphore

  const SIXTY_SECONDS: int := Semaphore.SIXTY_SECONDS

  function HoldOf(phase: Phase): Hold {
    match phase
    case InView(_, hold) => hold
    case Releasing(hold, _) => hold
    case _ => Unguarded
  }

  // ---- One request, whatever Redis answers ----

  /** What a request owes: a granted slot gets exactly one release attempt on every way out of
      the view; refused and failed-open requests make none; a slot still in Redis belongs to a
      holder, a crash, a failed release or a lost acquire reply. */
  predicate Orderly(r: Req) {
    var m := r.marks;
    match r.phase
    case InView(_, hold) =>
      m.releaseTries == 0 && !m.releaseFailed && (m.granted <==> hold.Held?)
      && (hold.Held? ==> m.slot == Some(hold.slotId))
      && (m.slot.Some? ==> hold.Held? || m.acquireLost)
      && (hold.Unguarded? ==> !IsHeavy(r.call.path) || r.call.tenant == "")
    case Releasing(hold, response) =>
      m.releaseTries == 0 && !m.releaseFailed && m.granted && hold.Held? && m.slot == Some(hold.slotId)
      && !response.RateLimited? && !response.ConcurrencyLimited?
    case Finished(response) =>
      m.releaseTries == (if m.granted then 1 else 0)
      && (m.slot.Some? ==> m.acquireLost || m.releaseFailed)
      && (response.RateLimited? || response.ConcurrencyLimited? ==> m == NO_MARKS)
    case Crashed => m.releaseTries == 0
    case _ => m == NO_MARKS
  }

  lemma {:induction false} OrderlyAdvance(r: Req, inp: Input)
    requires Orderly(r)
    ensures Orderly(r.(phase := Advance(r.call, r.phase, inp)))
  {
  }

  lemma {:induction false} OrderlyReceive(r: Req, acted: Option<Reply>, seen: Reply, inp: Input)
    requires Orderly(r) && (seen == Failure || acted == Some(seen))
    ensures Orderly(Req(r.call, Receive(r.call, r.phase, seen, inp), Record(r.phase, r.marks, acted, seen, inp.now)))
  {
    hide PriceOf, AmountFor, CustomerIn, AmountIn, PlanFor, IsHeavy;
  }

  lemma {:induction false} OrderlyStep(s: Store, r: Req, inp: Input)
    requires Orderly(r)
    ensures Orderly(LocalStep(s, r, inp).req)
  {
    hide LocalStep, Receive, Record, Advance, IsHeavy;
    LocalStepMoves(s, r, inp);
    var l := LocalStep(s, r, inp);
    OrderlyAdvance(r, inp);
    if SeenIn(l, inp) == Failure || ActedIn(l) == Some(SeenIn(l, inp)) {
      OrderlyReceive(r, ActedIn(l), SeenIn(l, inp), inp);
    }
  }

  /** The identifiers a request may have, or come to have, in the slot set. */
  predicate Knows(r: Req, id: string) {
    (r.phase.Acquiring? && r.phase.slotId == id)
    || (HoldOf(r.phase).Held? && HoldOf(r.phase).slotId == id)
    || r.marks.slot == Some(id)
  }

  lemma {:induction false} KnowsStep(s: Store, r: Req, inp: Input, id: string)
    requires Knows(LocalStep(s, r, inp).req, id)
    ensures Knows(r, id) || id == inp.uuid
  {
    hide LocalStep, PriceOf, AmountFor, CustomerIn, AmountIn, PlanFor, IsHeavy, ActedIn, SeenIn;
    LocalStepMoves(s, r, inp);
  }

  /** Where a slot can come from: the phase was acquiring and the reply admitted it. */
  lemma {:induction false} HoldStep(s: Store, r: Req, inp: Input)
    ensures var l := LocalStep(s, r, inp);
            var hold := HoldOf(l.req.phase);
            hold.Held? ==>
              hold == HoldOf(r.phase)
              || (r.phase.Acquiring? && hold == Held(r.phase.slotId, r.phase.stamp, r.phase.sampledAt)
                  && l.log != [] && l.log[0].op.cmd.Acquire? && l.log[0].reply.Slot? && l.log[0].reply.handle.admitted)
    ensures var phase := LocalStep(s, r, inp).req.phase;
            phase.Acquiring? ==> phase == r.phase || phase == Acquiring(inp.uuid, inp.host, inp.now)
  {
    hide Exec, Render, Put, Get, PriceOf, AmountFor, DraftFields, IssuedFields, CustomerIn, AmountIn, LimitsOf,
         PlanFor, CostOf, IsHeavy, ShouldGuard;
  }

  lemma {:induction false} SlotIssues(call: Request, phase: Phase, tenant: string)
    requires NextIssue(call, phase).Some?
    ensures var i := NextIssue(call, phase).value;
            && (Render(i.key) == Render(Concurrency(tenant)) <==>
                (i.cmd.Acquire? || i.cmd.Release?) && call.tenant == tenant)
            && (i.cmd.Acquire? ==> phase.Acquiring?
                                   && i.cmd == Acquire(PlanFor(call.tenant).maxConcurrency, phase.stamp, phase.slotId))
            && (i.cmd.Release? ==> HoldOf(phase).Held? && phase.Releasing? && i.cmd == Release(HoldOf(phase).slotId))
  {
    var i := NextIssue(call, phase).value;
    if Render(i.key) == Render(Concurrency(tenant)) { RenderInjective(i.key, Concurrency(tenant)); }
  }

  /** After a release reached Redis the request no longer holds; a crash drops the hold too. */
  lemma {:induction false} ReleaseStep(s: Store, r: Req, inp: Input)
    requires Orderly(r)
    ensures var l := LocalStep(s, r, inp);
            l.log != [] && l.log[0].op.cmd.Release? ==> HoldOf(l.req.phase).Unguarded?
  {
    hide Exec, Render, Put, Get, PriceOf, AmountFor, DraftFields, IssuedFields, CustomerIn, AmountIn, LimitsOf,
         PlanFor, CostOf, IsHeavy, ShouldGuard;
  }

  // ---- Identifiers never collide ----

  ghost predicate AllOrderly(sys: Sys) {
    forall r :: r in sys.reqs ==> Orderly(sys.reqs[r])
  }

  ghost predicate DistinctIds(sys: Sys) {
    forall r, q, id :: r in sys.reqs && q in sys.reqs && Knows(sys.reqs[r], id) && Knows(sys.reqs[q], id) ==> r == q
  }

  ghost predicate IdsFrom(sys: Sys, items: seq<Item>, n: nat)
    requires n <= |items|
  {
    forall r, id :: r in sys.reqs && Knows(sys.reqs[r], id) ==> exists i :: 0 <= i < n && items[i].input.uuid == id
  }

  lemma {:induction false} OrderlyInvariant(start: Sys, items: seq<Item>, n: nat)
    requires Initial(start) && n <= |items|
    ensures AllOrderly(State(start, items, n))
  {
    if n == 0 { return; }
    OrderlyInvariant(start, items, n - 1);
    var sys, item := State(start, items, n - 1), items[n - 1];
    hide LocalStep, Orderly, State;
    StateNext(start, items, n);
    if item.rid in sys.reqs { OrderlyStep(sys.store, sys.reqs[item.rid], item.input); }
  }

  lemma {:induction false} IdsInvariant(start: Sys, items: seq<Item>, n: nat)
    requires Initial(start) && FreshIds(items) && n <= |items|
    ensures var sys := State(start, items, n);
            AllOrderly(sys) && DistinctIds(sys) && IdsFrom(sys, items, n)
  {
    if n == 0 { return; }
    OrderlyInvariant(start, items, n);
    IdsInvariant(start, items, n - 1);
    var sys, item := State(start, items, n - 1), items[n - 1];
    hide LocalStep, Orderly, Knows, State;
    StateNext(start, items, n);
    if item.rid in sys.reqs {
      var r := sys.reqs[item.rid];
      var after := Step(sys, item);
      forall q, id | q in after.reqs && Knows(after.reqs[q], id)
        ensures (q in sys.reqs && Knows(sys.reqs[q], id)) || (q == item.rid && id == item.input.uuid)
      {
        if q == item.rid { KnowsStep(sys.store, r, item.input, id); }
      }
    }
  }

  // ---- The in-flight cap ----

  /** The holder's slot is in the set under its own stamp, and the key outlives the slot. */
  predicate Seated(c: Cell, hold: Hold)
    requires hold.Held?
  {
    c.Present? && c.value.ZSet? && c.expiry.At? && c.expiry.deadline >= hold.sampledAt + SIXTY_SECONDS
    && hold.slotId in c.value.members && c.value.members[hold.slotId] == hold.stamp
  }

  predicate SlotsWithin(c: Cell, capacity: nat) {
    c.Present? ==> c.value.ZSet? && c.expiry.At? && |c.value.members| <= capacity
  }

  lemma {:induction false} AcquireOnSlots(c: Cell, capacity: nat, stamp: int, id: string, now: int)
    requires SlotsWithin(c, capacity)
    ensures var out := Exec(c, Acquire(capacity, stamp, id), now);
            SlotsWithin(out.cell, capacity) && out.reply.Slot?
            && (out.reply.handle.admitted ==>
                  forall at :: at <= now ==> Seated(out.cell, Held(id, stamp, at)))
  {
    var found := match Seen(c, now) case Absent => map[] case Present(v, _) => v.members;
    var kept := Semaphore.Evict(found, stamp - SIXTY_SECONDS);
    assert kept.Keys <= found.Keys;
    Semaphore.SubsetCard(kept.Keys, found.Keys);
    assert |kept| == |kept.Keys| && |found| == |found.Keys|;
    if |kept| < capacity {
      assert kept[id := stamp].Keys == kept.Keys + {id};
      assert |kept[id := stamp]| == |kept[id := stamp].Keys|;
      Semaphore.SubsetCard(kept[id := stamp].Keys, kept.Keys + {id});
    }
  }

  lemma {:induction false} AcquireKeepsSeat(c: Cell, hold: Hold, capacity: nat, stamp: int, id: string, now: int)
    requires hold.Held? && Seated(c, hold) && id != hold.slotId
    requires hold.sampledAt <= now < hold.sampledAt + SIXTY_SECONDS && hold.stamp > stamp - SIXTY_SECONDS
    ensures Seated(Exec(c, Acquire(capacity, stamp, id), now).cell, hold)
  {
    assert hold.slotId in Semaphore.Admit(c.value.members, capacity, stamp, id).members;
  }

  lemma {:induction false} ReleaseKeepsSeat(c: Cell, hold: Hold, id: string, now: int)
    requires hold.Held? && Seated(c, hold) && id != hold.slotId && now < hold.sampledAt + SIXTY_SECONDS
    ensures Seated(Exec(c, Release(id), now).cell, hold)
  {
    assert hold.slotId in c.value.members - {id};
  }

  lemma {:induction false} ReleaseOnSlots(c: Cell, capacity: nat, id: string, now: int)
    requires SlotsWithin(c, capacity)
    ensures SlotsWithin(Exec(c, Release(id), now).cell, capacity)
  {
    if Seen(c, now).Present? {
      var m := c.value.members;
      assert (m - {id}).Keys <= m.Keys;
      Semaphore.SubsetCard((m - {id}).Keys, m.Keys);
      assert |m - {id}| == |(m - {id}).Keys| && |m| == |m.Keys|;
    }
  }

  /** Host clocks read within `eps` of Redis time. */
  predicate Skewed(items: seq<Item>, eps: nat) {
    forall i :: 0 <= i < |items| ==>
      items[i].input.now - eps <= items[i].input.host <= items[i].input.now + eps
  }

  /** At `now`, every holder of the tenant is within `limit` of its clock read. */
  ghost predicate TimelyAt(sys: Sys, tenant: string, now: int, limit: int) {
    forall r :: r in sys.reqs && sys.reqs[r].call.tenant == tenant && HoldOf(sys.reqs[r].phase).Held? ==>
      now < HoldOf(sys.reqs[r].phase).sampledAt + limit
  }

  /** Holders release within `limit` of reading their clock. */
  ghost predicate Timely(start: Sys, items: seq<Item>, tenant: string, limit: int) {
    forall k :: 0 <= k < |items| ==> TimelyAt(State(start, items, k), tenant, items[k].input.now, limit)
  }

  /** Sixty seconds less twice the skew. */
  function Margin(eps: nat): int {
    60_000_000 - 2 * eps
  }

  predicate SafeReq(c: Cell, r: Req, eps: nat, latest: int) {
    && (r.phase.Acquiring? ==>
          r.phase.sampledAt - eps <= r.phase.stamp <= r.phase.sampledAt + eps && r.phase.sampledAt <= latest)
    && (HoldOf(r.phase).Held? ==>
          var hold := HoldOf(r.phase);
          hold.sampledAt - eps <= hold.stamp && hold.sampledAt <= latest && Seated(c, hold))
  }

  ghost predicate Safe(sys: Sys, tenant: string, eps: nat, latest: int) {
    var c := Get(sys.store, Render(Concurrency(tenant)));
    SlotsWithin(c, PlanFor(tenant).maxConcurrency)
    && forall r :: r in sys.reqs && sys.reqs[r].call.tenant == tenant ==> SafeReq(c, sys.reqs[r], eps, latest)
  }

  /** The cell of one tenant's semaphore after a step. */
  lemma {:induction false} SlotCellStep(sys: Sys, item: Item, tenant: string)
    ensures var key := Render(Concurrency(tenant));
            var c := Get(Step(sys, item).store, key);
            match Executed(sys, item)
            case None => c == Get(sys.store, key)
            case Some(e) =>
              if e.key == key then c == Exec(Get(sys.store, key), e.op.cmd, e.op.now).cell
                                   && e.reply == Exec(Get(sys.store, key), e.op.cmd, e.op.now).reply
                                   && (e.op.cmd.Acquire? || e.op.cmd.Release?)
              else c == Get(sys.store, key)
  {
    hide Step, Executed, Exec, Render, Get, Put, NextIssue;
    StepEffect(sys, item);
    if Executed(sys, item).Some? {
      var e := Executed(sys, item).value;
      var r := sys.reqs[item.rid];
      SlotIssues(r.call, r.phase, tenant);
      GetPut(sys.store, e.key, Exec(Get(sys.store, e.key), e.op.cmd, e.op.now).cell, Render(Concurrency(tenant)));
    }
  }

  /** A request that does not move keeps its seat when another one's slot command runs. */
  lemma {:induction false} OthersKeepSeats(c: Cell, q: Req, r: Req, inp: Input, cmd: Command, eps: nat, latest: int)
    requires SafeReq(c, q, eps, latest) && SafeReq(c, r, eps, latest) && latest <= inp.now
    requires HoldOf(q.phase).Held? ==> inp.now < HoldOf(q.phase).sampledAt + SIXTY_SECONDS - 2 * eps
    requires match cmd
             case Acquire(_, stamp, id) => r.phase.Acquiring? && stamp == r.phase.stamp && id == r.phase.slotId
             case Release(id) => HoldOf(r.phase).Held? && id == HoldOf(r.phase).slotId
             case _ => false
    requires forall id :: Knows(q, id) ==> !Knows(r, id)
    ensures SafeReq(Exec(c, cmd, inp.now).cell, q, eps, inp.now)
  {
    hide Exec;
    if HoldOf(q.phase).Held? {
      var hold := HoldOf(q.phase);
      assert Knows(q, hold.slotId);
      match cmd {
        case Acquire(capacity, stamp, id) =>
          assert Knows(r, id);
          AcquireKeepsSeat(c, hold, capacity, stamp, id, inp.now);
        case Release(id) =>
          assert Knows(r, id);
          ReleaseKeepsSeat(c, hold, id, inp.now);
        case _ =>
      }
    }
  }

  lemma {:induction false} SafeCellStep(sys: Sys, item: Item, tenant: string, eps: nat, latest: int)
    requires Safe(sys, tenant, eps, latest)
    ensures SlotsWithin(Get(Step(sys, item).store, Render(Concurrency(tenant))), PlanFor(tenant).maxConcurrency)
  {
    hide Step, Executed, Exec, Render, Get, Put, NextIssue, PlanFor, SlotsWithin;
    SlotCellStep(sys, item, tenant);
    StepEffect(sys, item);
    if Executed(sys, item).Some? {
      var e := Executed(sys, item).value;
      var r := sys.reqs[item.rid];
      SlotIssues(r.call, r.phase, tenant);
      var c, cap := Get(sys.store, Render(Concurrency(tenant))), PlanFor(tenant).maxConcurrency;
      match e.op.cmd {
        case Acquire(_, stamp, id) => AcquireOnSlots(c, cap, stamp, id, e.op.now);
        case Release(id) => ReleaseOnSlots(c, cap, id, e.op.now);
        case _ =>
      }
    }
  }

  lemma {:induction false} SafeStep(sys: Sys, item: Item, tenant: string, eps: nat, latest: int)
    requires Safe(sys, tenant, eps, latest) && AllOrderly(sys) && DistinctIds(sys)
    requires latest <= item.input.now && TimelyAt(sys, tenant, item.input.now, Margin(eps))
    requires item.input.now - eps <= item.input.host <= item.input.now + eps
    ensures Safe(Step(sys, item), tenant, eps, item.input.now)
  {
    SafeCellStep(sys, item, tenant, eps, latest);
    forall q | q in sys.reqs && sys.reqs[q].call.tenant == tenant
      ensures SafeReq(Get(Step(sys, item).store, Render(Concurrency(tenant))), Step(sys, item).reqs[q], eps,
                      item.input.now)
    {
      SafeReqStep(sys, item, tenant, eps, latest, q);
    }
    StepKeepsCalls(sys, item);
  }

  lemma {:induction false} StepKeepsCalls(sys: Sys, item: Item)
    ensures var after := Step(sys, item);
            after.reqs.Keys == sys.reqs.Keys
            && forall q :: q in sys.reqs ==> after.reqs[q].call == sys.reqs[q].call
                                             && (q != item.rid ==> after.reqs[q] == sys.reqs[q])
  {
    if item.rid in sys.reqs { LocalStepEffect(sys.store, sys.reqs[item.rid], item.input); }
  }

  lemma {:induction false} SafeReqStep(sys: Sys, item: Item, tenant: string, eps: nat, latest: int, q: nat)
    requires Safe(sys, tenant, eps, latest) && AllOrderly(sys) && DistinctIds(sys)
    requires latest <= item.input.now && TimelyAt(sys, tenant, item.input.now, Margin(eps))
    requires item.input.now - eps <= item.input.host <= item.input.now + eps
    requires q in sys.reqs && sys.reqs[q].call.tenant == tenant
    ensures q in Step(sys, item).reqs
    ensures SafeReq(Get(Step(sys, item).store, Render(Concurrency(tenant))), Step(sys, item).reqs[q], eps,
                    item.input.now)
  {
    hide Exec, Render, Get, Put, NextIssue, PlanFor, SlotsWithin, LocalStep, Seated, Knows, Orderly;
    StepKeepsCalls(sys, item);
    SlotCellStep(sys, item, tenant);
    StepEffect(sys, item);
    var c := Get(sys.store, Render(Concurrency(tenant)));
    if item.rid !in sys.reqs { return; }
    var r := sys.reqs[item.rid];
    if Executed(sys, item).Some? { SlotIssues(r.call, r.phase, tenant); }
    if q == item.rid {
      HoldStep(sys.store, r, item.input);
      ReleaseStep(sys.store, r, item.input);
      if Executed(sys, item).Some? && r.phase.Acquiring? {
        AcquireOnSlots(c, PlanFor(tenant).maxConcurrency, r.phase.stamp, r.phase.slotId, item.input.now);
      }
    } else if Executed(sys, item).Some? && Executed(sys, item).value.key == Render(Concurrency(tenant)) {
      var e := Executed(sys, item).value;
      assert SafeReq(c, sys.reqs[q], eps, latest) && SafeReq(c, r, eps, latest);
      OthersKeepSeats(c, sys.reqs[q], r, item.input, e.op.cmd, eps, latest);
    }
  }

  lemma {:induction false} SafeAtStart(start: Sys, tenant: string, eps: nat, latest: int)
    requires Initial(start)
    ensures Safe(start, tenant, eps, latest)
  {
    NotPricing(Concurrency(tenant), start);
  }

  lemma {:induction false} SafeInvariant(start: Sys, items: seq<Item>, n: nat, tenant: string, eps: nat)
    requires Initial(start) && FreshIds(items) && Forward(items) && Skewed(items, eps)
    requires Timely(start, items, tenant, Margin(eps)) && n <= |items|
    ensures Safe(State(start, items, n), tenant, eps, if n == 0 then items[0].input.now else items[n - 1].input.now)
    requires items != []
  {
    hide *;
    if n == 0 {
      SafeAtStart(start, tenant, eps, items[0].input.now);
      AtZero(start, items);
    } else {
      SafeInvariant(start, items, n - 1, tenant, eps);
      IdsInvariant(start, items, n - 1);
      StateNext(start, items, n);
      StepConditions(start, items, n - 1, tenant, eps);
      SafeStep(State(start, items, n - 1), items[n - 1], tenant, eps,
               if n == 1 then items[0].input.now else items[n - 2].input.now);
    }
  }

  lemma {:induction false} AtZero(start: Sys, items: seq<Item>)
    ensures State(start, items, 0) == start
  {
  }

  lemma {:induction false} StepConditions(start: Sys, items: seq<Item>, k: nat, tenant: string, eps: nat)
    requires k < |items| && Forward(items) && Skewed(items, eps) && Timely(start, items, tenant, Margin(eps))
    ensures TimelyAt(State(start, items, k), tenant, items[k].input.now, Margin(eps))
    ensures items[k].input.now - eps <= items[k].input.host <= items[k].input.now + eps
    ensures (if k == 0 then items[0].input.now else items[k - 1].input.now) <= items[k].input.now
  {
    hide State, TimelyAt;
  }

  /** The tenant's admitted, unreleased holders: in the view or about to release. */
  function Holders(sys: Sys, tenant: string): set<nat> {
    set r | r in sys.reqs && sys.reqs[r].call.tenant == tenant && HoldOf(sys.reqs[r].phase).Held?
  }

  /** Requests of a heavy endpoint that are running in the view. */
  function RunningHeavy(sys: Sys, tenant: string): set<nat> {
    set r | r in sys.reqs && sys.reqs[r].call.tenant == tenant && IsHeavy(sys.reqs[r].call.path)
            && sys.reqs[r].phase.InView?
  }

  /** Requests running in the view although the slot gate failed. */
  function RunningFailedOpen(sys: Sys, tenant: string): set<nat> {
    set r | r in sys.reqs && sys.reqs[r].call.tenant == tenant && HoldOf(sys.reqs[r].phase).FailedOpen?
  }

  lemma {:induction false} SeatsCount(sys: Sys, holders: set<nat>, members: map<string, int>)
    requires DistinctIds(sys)
    requires forall r :: r in holders ==>
               r in sys.reqs && HoldOf(sys.reqs[r].phase).Held? && HoldOf(sys.reqs[r].phase).slotId in members
    ensures |holders| <= |members|
  {
    if holders != {} {
      var r :| r in holders;
      var id := HoldOf(sys.reqs[r].phase).slotId;
      forall q | q in holders - {r} ensures HoldOf(sys.reqs[q].phase).slotId in members - {id} {
        if HoldOf(sys.reqs[q].phase).slotId == id {
          assert Knows(sys.reqs[q], id) && Knows(sys.reqs[r], id);
        }
      }
      SeatsCount(sys, holders - {r}, members - {id});
      assert members.Keys == (members - {id}).Keys + {id};
      assert |members| == |members.Keys| && |members - {id}| == |(members - {id}).Keys|;
    }
  }

  lemma {:induction false} SafeMeansCapped(sys: Sys, tenant: string, eps: nat, latest: int)
    requires Safe(sys, tenant, eps, latest) && DistinctIds(sys)
    ensures |Holders(sys, tenant)| <= PlanFor(tenant).maxConcurrency
  {
    hide Render, PlanFor;
    var c := Get(sys.store, Render(Concurrency(tenant)));
    var holders := Holders(sys, tenant);
    if holders != {} {
      var r :| r in holders;
      assert SafeReq(c, sys.reqs[r], eps, latest);
      SeatsCount(sys, holders, c.value.members);
    }
  }

  lemma {:induction false} HeavyRunSplits(sys: Sys, tenant: string)
    requires AllOrderly(sys) && tenant != ""
    ensures RunningHeavy(sys, tenant) <= Holders(sys, tenant) + RunningFailedOpen(sys, tenant)
  {
    forall r | r in RunningHeavy(sys, tenant) ensures r in Holders(sys, tenant) + RunningFailedOpen(sys, tenant) {
      assert Orderly(sys.reqs[r]);
    }
  }

  /** In-flight cap under clock skew, gate faults and crashes, in every interleaving: when
      host clocks are within `eps` of Redis and holders finish within 60 s less twice that,
      no holder is ever evicted, holders never exceed the plan's cap, and running heavy views
      exceed it only by those whose slot gate failed open. */
  lemma {:induction false} InFlightBound(start: Sys, items: seq<Item>, n: nat, tenant: string, eps: nat)
    requires Initial(start) && FreshIds(items) && Forward(items) && Skewed(items, eps)
    requires Timely(start, items, tenant, Margin(eps)) && n <= |items| && tenant != ""
    ensures var sys := State(start, items, n);
            var cap := PlanFor(tenant).maxConcurrency;
            && |Holders(sys, tenant)| <= cap
            && (forall r :: r in Holders(sys, tenant) ==>
                  Seated(Get(sys.store, Render(Concurrency(tenant))), HoldOf(sys.reqs[r].phase)))
            && |RunningHeavy(sys, tenant)| <= cap + |RunningFailedOpen(sys, tenant)|
  {
    if items == [] {
      NobodyHolds(start, tenant);
      return;
    }
    hide State, Initial, FreshIds, Forward, Skewed, Timely, Render, PlanFor, Holders, RunningHeavy, RunningFailedOpen;
    var sys := State(start, items, n);
    var latest := if n == 0 then items[0].input.now else items[n - 1].input.now;
    SafeInvariant(start, items, n, tenant, eps);
    IdsInvariant(start, items, n);
    SafeMeansCapped(sys, tenant, eps, latest);
    HoldersSeated(sys, tenant, eps, latest);
    HeavyRunSplits(sys, tenant);
    Semaphore.SubsetCard(RunningHeavy(sys, tenant), Holders(sys, tenant) + RunningFailedOpen(sys, tenant));
  }

  lemma {:induction false} NobodyHolds(start: Sys, tenant: string)
    requires Initial(start)
    ensures Holders(start, tenant) == {} && RunningHeavy(start, tenant) == {}
  {
  }

  lemma {:induction false} HoldersSeated(sys: Sys, tenant: string, eps: nat, latest: int)
    requires Safe(sys, tenant, eps, latest)
    ensures forall r :: r in Holders(sys, tenant) ==>
              Seated(Get(sys.store, Render(Concurrency(tenant))), HoldOf(sys.reqs[r].phase))
  {
    hide Render, PlanFor, Seated;
  }

  // ---- Ownership of slots ----

  function Members(c: Cell): map<string, int> {
    if c.Present? && c.value.ZSet? then c.value.members else map[]
  }

  ghost predicate SlotsOwned(sys: Sys, tenant: string) {
    var c := Get(sys.store, Render(Concurrency(tenant)));
    forall id :: id in Members(c) ==> exists r :: Owns(sys, r, tenant, id)
  }

  predicate Owns(sys: Sys, r: nat, tenant: string, id: string) {
    r in sys.reqs && sys.reqs[r].call.tenant == tenant && sys.reqs[r].marks.slot == Some(id)
  }

  /** The slot mark changes only when the slot script admits or the release reaches Redis. */
  lemma {:induction false} SlotMarkStep(s: Store, r: Req, inp: Input)
    requires Orderly(r)
    ensures var l := LocalStep(s, r, inp);
            if l.log == [] then l.req.marks.slot == r.marks.slot
            else match l.log[0].op.cmd
                 case Acquire(_, _, id) =>
                   r.phase.Acquiring? && id == r.phase.slotId && r.marks.slot == None
                   && l.req.marks.slot
                      == if l.log[0].reply.Slot? && l.log[0].reply.handle.admitted then Some(id) else None
                 case Release(id) =>
                   r.marks.slot == Some(id) && (l.req.marks.slot == None || l.req.marks.slot == Some(id))
                 case _ => l.req.marks.slot == r.marks.slot
  {
    hide Exec, Render, Put, Get, PriceOf, AmountFor, DraftFields, IssuedFields, CustomerIn, AmountIn, LimitsOf,
         PlanFor, CostOf, IsHeavy, ShouldGuard;
  }

  lemma {:induction false} SlotMembersNext(c: Cell, cmd: Command, now: int)
    ensures var out := Exec(c, cmd, now);
            match cmd
            case Acquire(_, _, id) =>
              forall m :: m in Members(out.cell) ==>
                m in Members(c) || (m == id && out.reply.Slot? && out.reply.handle.admitted)
            case Release(id) => forall m :: m in Members(out.cell) ==> m in Members(c) && m != id
            case _ => true
  {
  }

  lemma {:induction false} OwnershipStep(sys: Sys, item: Item, tenant: string)
    requires SlotsOwned(sys, tenant) && AllOrderly(sys)
    ensures SlotsOwned(Step(sys, item), tenant)
  {
    hide Exec, Render, Get, Put, NextIssue, LocalStep, Orderly, Members;
    if item.rid !in sys.reqs { return; }
    var r, after := sys.reqs[item.rid], Step(sys, item);
    StepKeepsCalls(sys, item);
    SlotCellStep(sys, item, tenant);
    StepEffect(sys, item);
    SlotMarkStep(sys.store, r, item.input);
    var key := Render(Concurrency(tenant));
    if Executed(sys, item).Some? {
      SlotIssues(r.call, r.phase, tenant);
      SlotMembersNext(Get(sys.store, key), Executed(sys, item).value.op.cmd, item.input.now);
    }
    forall id | id in Members(Get(after.store, key)) ensures exists q :: Owns(after, q, tenant, id) {
      if id in Members(Get(sys.store, key)) {
        var q :| Owns(sys, q, tenant, id);
        assert Owns(after, q, tenant, id);
      } else {
        assert Owns(after, item.rid, tenant, id);
      }
    }
  }

  lemma {:induction false} OwnershipInvariant(start: Sys, items: seq<Item>, n: nat, tenant: string)
    requires Initial(start) && FreshIds(items) && n <= |items|
    ensures SlotsOwned(State(start, items, n), tenant)
  {
    hide *;
    if n == 0 {
      NothingOwnedAtStart(start, items, tenant);
    } else {
      OwnershipInvariant(start, items, n - 1, tenant);
      IdsInvariant(start, items, n - 1);
      StateNext(start, items, n);
      OwnershipStep(State(start, items, n - 1), items[n - 1], tenant);
    }
  }

  lemma {:induction false} NothingOwnedAtStart(start: Sys, items: seq<Item>, tenant: string)
    requires Initial(start)
    ensures SlotsOwned(State(start, items, 0), tenant)
  {
    NotPricing(Concurrency(tenant), start);
  }

  /** Why a slot may still be in the set. */
  predicate Accounted(r: Req, id: string) {
    (HoldOf(r.phase).Held? && HoldOf(r.phase).slotId == id) || r.phase.Crashed?
    || r.marks.acquireLost || r.marks.releaseFailed
  }

  /** Slot ownership, in every interleaving with any faults: every member of the slot set
      belongs to exactly one request, which holds it, crashed, lost its acquire reply or had
      its release fail; once all requests are finished without such a fault the set is empty. */
  lemma {:induction false} SlotOwnership(start: Sys, items: seq<Item>, n: nat, tenant: string)
    requires Initial(start) && FreshIds(items) && n <= |items|
    ensures var sys := State(start, items, n);
            var members := Members(Get(sys.store, Render(Concurrency(tenant))));
            && (forall id :: id in members ==> exists r :: Owns(sys, r, tenant, id) && Accounted(sys.reqs[r], id))
            && (forall id, r, q, other :: Owns(sys, r, tenant, id) && Owns(sys, q, other, id) ==> r == q)
            && ((forall r :: r in sys.reqs && sys.reqs[r].call.tenant == tenant ==>
                   sys.reqs[r].phase.Finished? && !sys.reqs[r].marks.acquireLost && !sys.reqs[r].marks.releaseFailed)
                ==> members == map[])
  {
    hide State, Initial, FreshIds, Render, Members, Get, Orderly;
    var sys := State(start, items, n);
    var members := Members(Get(sys.store, Render(Concurrency(tenant))));
    OwnershipInvariant(start, items, n, tenant);
    IdsInvariant(start, items, n);
    forall id | id in members ensures exists r :: Owns(sys, r, tenant, id) && Accounted(sys.reqs[r], id) {
      var r :| Owns(sys, r, tenant, id);
      OrderlyAccounts(sys.reqs[r], id);
      assert Owns(sys, r, tenant, id) && Accounted(sys.reqs[r], id);
    }
    forall id, r, q, other | Owns(sys, r, tenant, id) && Owns(sys, q, other, id) ensures r == q {
      assert Knows(sys.reqs[r], id) && Knows(sys.reqs[q], id);
    }
  }

  lemma {:induction false} OrderlyAccounts(r: Req, id: string)
    requires Orderly(r) && r.marks.slot == Some(id)
    ensures Accounted(r, id)
  {
  }

  /** Each granted slot gets exactly one release attempt by the time its request finishes,
      normally or by an exception; refusals and failing open make none, and a request refused
      by either gate left no mark in Redis beyond its rate-gate charge. */
  lemma {:induction false} OneReleasePerGrant(start: Sys, items: seq<Item>, n: nat, r: nat)
    requires Initial(start) && n <= |items| && r in State(start, items, n).reqs
    ensures var req := State(start, items, n).reqs[r];
            && (req.phase.Finished? ==> req.marks.releaseTries == if req.marks.granted then 1 else 0)
            && (req.phase.InView? ==> (req.marks.granted <==> HoldOf(req.phase).Held?))
            && (req.phase.Finished? && (req.phase.response.RateLimited? || req.phase.response.ConcurrencyLimited?)
                ==> req.marks == NO_MARKS)
  {
    OrderlyInvariant(start, items, n);
    assert Orderly(State(start, items, n).reqs[r]);
  }

  // ---- When the slot gate answers: the platform-wide cap ----

  predicate GateAnswers(sys: Sys, item: Item, tenant: string) {
    item.rid in sys.reqs && sys.reqs[item.rid].call.tenant == tenant && sys.reqs[item.rid].phase.Acquiring? ==>
      !item.input.fault.ErrorBefore? && !item.input.fault.ReplyLost?
  }

  /** The slot script of this tenant's requests meets no Redis error and loses no reply. Every
      other command, of any tenant, may fail, and workers may crash. */
  ghost predicate SlotGateAnswers(start: Sys, items: seq<Item>, tenant: string) {
    forall k :: 0 <= k < |items| ==> GateAnswers(State(start, items, k), items[k], tenant)
  }

  lemma {:induction false} FailedOpenStep(s: Store, r: Req, inp: Input)
    requires HoldOf(LocalStep(s, r, inp).req.phase).FailedOpen? && !HoldOf(r.phase).FailedOpen?
    ensures r.phase.Acquiring?
    ensures inp.fault.ErrorBefore? || inp.fault.ReplyLost?
            || (LocalStep(s, r, inp).log != [] && LocalStep(s, r, inp).log[0].op.cmd.Acquire?
                && !LocalStep(s, r, inp).log[0].reply.Slot?)
  {
    hide Exec, Render, Put, Get, PriceOf, AmountFor, DraftFields, IssuedFields, CustomerIn, AmountIn, LimitsOf,
         PlanFor, CostOf, IsHeavy, ShouldGuard;
  }

  ghost predicate GateWorks(sys: Sys, tenant: string) {
    SlotsWithin(Get(sys.store, Render(Concurrency(tenant))), PlanFor(tenant).maxConcurrency)
    && forall r :: r in sys.reqs && sys.reqs[r].call.tenant == tenant ==> !HoldOf(sys.reqs[r].phase).FailedOpen?
  }

  lemma {:induction false} SlotsWithinStep(sys: Sys, item: Item, tenant: string)
    requires SlotsWithin(Get(sys.store, Render(Concurrency(tenant))), PlanFor(tenant).maxConcurrency)
    ensures SlotsWithin(Get(Step(sys, item).store, Render(Concurrency(tenant))), PlanFor(tenant).maxConcurrency)
    ensures Executed(sys, item).Some? && Executed(sys, item).value.op.cmd.Acquire?
            && Executed(sys, item).value.call.tenant == tenant
            ==> Executed(sys, item).value.reply.Slot?
  {
    hide Step, Executed, Exec, Render, Get, Put, NextIssue, PlanFor, SlotsWithin;
    SlotCellStep(sys, item, tenant);
    StepEffect(sys, item);
    if Executed(sys, item).Some? {
      var e := Executed(sys, item).value;
      var r := sys.reqs[item.rid];
      SlotIssues(r.call, r.phase, tenant);
      var c, cap := Get(sys.store, Render(Concurrency(tenant))), PlanFor(tenant).maxConcurrency;
      match e.op.cmd {
        case Acquire(_, stamp, id) => AcquireOnSlots(c, cap, stamp, id, e.op.now);
        case Release(id) => ReleaseOnSlots(c, cap, id, e.op.now);
        case _ =>
      }
    }
  }

  lemma {:induction false} GateWorksStep(sys: Sys, item: Item, tenant: string)
    requires GateWorks(sys, tenant) && GateAnswers(sys, item, tenant)
    ensures GateWorks(Step(sys, item), tenant)
  {
    hide Exec, Render, Get, Put, NextIssue, LocalStep, PlanFor, SlotsWithin;
    SlotsWithinStep(sys, item, tenant);
    if item.rid in sys.reqs {
      var r := sys.reqs[item.rid];
      LocalStepEffect(sys.store, r, item.input);
      if HoldOf(Step(sys, item).reqs[item.rid].phase).FailedOpen? && !HoldOf(r.phase).FailedOpen? {
        FailedOpenStep(sys.store, r, item.input);
      }
    }
  }

  lemma {:induction false} GateWorksAtStart(start: Sys, items: seq<Item>, tenant: string)
    requires Initial(start)
    ensures GateWorks(State(start, items, 0), tenant)
  {
    NotPricing(Concurrency(tenant), start);
  }

  lemma {:induction false} GateAnswersAt(start: Sys, items: seq<Item>, tenant: string, k: nat)
    requires SlotGateAnswers(start, items, tenant) && k < |items|
    ensures GateAnswers(State(start, items, k), items[k], tenant)
  {
    hide State, GateAnswers;
  }

  lemma {:induction false} GateWorksInvariant(start: Sys, items: seq<Item>, n: nat, tenant: string)
    requires Initial(start) && SlotGateAnswers(start, items, tenant) && n <= |items|
    ensures GateWorks(State(start, items, n), tenant)
  {
    hide *;
    if n == 0 {
      GateWorksAtStart(start, items, tenant);
    } else {
      GateWorksInvariant(start, items, n - 1, tenant);
      GateAnswersAt(start, items, tenant, n - 1);
      StateNext(start, items, n);
      GateWorksStep(State(start, items, n - 1), items[n - 1], tenant);
    }
  }

  /** Running heavy views of a list of tenants. */
  function RunningOver(sys: Sys, tenants: seq<string>): set<nat> {
    if tenants == [] then {} else RunningHeavy(sys, tenants[0]) + RunningOver(sys, tenants[1..])
  }

  lemma {:induction false} RunningOverCapped(sys: Sys, tenants: seq<string>)
    requires forall t :: t in tenants ==> |RunningHeavy(sys, t)| <= PlanFor(t).maxConcurrency
    ensures |RunningOver(sys, tenants)| <= SumOfCaps(tenants)
  {
    hide RunningHeavy, PlanFor;
    if tenants != [] {
      RunningOverCapped(sys, tenants[1..]);
      var a, b := RunningHeavy(sys, tenants[0]), RunningOver(sys, tenants[1..]);
      assert tenants[0] in tenants;
      assert |a + b| == |a| + |b - a| by { assert a + b == a + (b - a); }
      Semaphore.SubsetCard(b - a, b);
    }
  }

  /** Platform-wide cap: when their slot gates answer, whatever else fails, the running heavy
      views of any list of distinct tenants number at most the sum of their caps, 38 plus five
      per unlisted tenant. */
  lemma {:induction false} PlatformCap(start: Sys, items: seq<Item>, n: nat, tenants: seq<string>, eps: nat)
    requires Initial(start) && FreshIds(items) && Forward(items) && Skewed(items, eps)
    requires forall t :: t in tenants ==>
               t != "" && Timely(start, items, t, Margin(eps)) && SlotGateAnswers(start, items, t)
    requires Distinct(tenants) && n <= |items|
    ensures |RunningOver(State(start, items, n), tenants)| <= SumOfCaps(tenants) <= 38 + 5 * Unlisted(tenants)
  {
    hide *;
    var sys := State(start, items, n);
    forall t | t in tenants ensures |RunningHeavy(sys, t)| <= PlanFor(t).maxConcurrency {
      InFlightBound(start, items, n, t, eps);
      GateWorksInvariant(start, items, n, t);
      NoneFailedOpen(sys, t);
    }
    RunningOverCapped(sys, tenants);
    PlatformCaps(tenants);
  }

  lemma {:induction false} NoneFailedOpen(sys: Sys, tenant: string)
    requires GateWorks(sys, tenant)
    ensures RunningFailedOpen(sys, tenant) == {}
  {
    hide SlotsWithin, Render, Get, PlanFor;
  }
}
