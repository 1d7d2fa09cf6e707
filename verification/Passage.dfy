/** Requests on their way in: the steps by which one passes the gates and reaches its view.
    The concrete runs of the exactness results are built from these. */
module Passage {
  import opened TenantPlan
  import opened KeySchema
  import opened RedisStore
  import opened Program
  import Semaphore

  /** A request behind the rate gate. */
  predicate Guarded(call: Request) {
    ShouldGuard(call.path) && call.tenant != ""
  }

  /** A step changes no key but the one its command addresses. */
  lemma {:induction false} OthersUntouched(s: Store, r: Req, inp: Input, k: Key)
    requires var i := NextIssue(r.call, r.phase); i.Some? ==> Render(i.value.key) != Render(k)
    ensures Get(LocalStep(s, r, inp).store, Render(k)) == Get(s, Render(k))
  {
    hide Exec, Render, Receive, Record, Advance, NextIssue;
  }

  /** A full bucket admits every endpoint. */
  lemma {:induction false} FullBucketAdmits(tenant: string, path: string, now: int)
    ensures var out := Exec(Absent, Consume(LimitsOf(tenant), CostOf(path)), now);
            out.reply.Tokens? && out.reply.decision.allowed
  {
    hide PlanFor, CostOf;
  }

  /** What the bucket script finds admits a request to this path. */
  predicate Admits(c: Cell, tenant: string, path: string, now: int) {
    var out := Exec(c, Consume(LimitsOf(tenant), CostOf(path)), now);
    out.reply.Tokens? && out.reply.decision.allowed
  }

  lemma {:induction false} PaysRate(s: Store, call: Request, inp: Input)
    requires Guarded(call) && inp.fault.NoFault?
    requires Admits(Get(s, Render(RateLimit(call.tenant))), call.tenant, call.path, inp.now)
    ensures var l, key := LocalStep(s, Arrive(call), inp), Render(RateLimit(call.tenant));
            l.req == Req(call, AtSlotGate, NO_MARKS)
            && Get(l.store, key) == Exec(Get(s, key), Consume(LimitsOf(call.tenant), CostOf(call.path)), inp.now).cell
  {
    hide Render, LimitsOf, CostOf, ShouldGuard, Exec, Get, Put;
    var key := Render(RateLimit(call.tenant));
    var out := Exec(Get(s, key), Consume(LimitsOf(call.tenant), CostOf(call.path)), inp.now);
    GetPut(s, key, out.cell, key);
  }

  lemma {:induction false} RatePasses(s: Store, call: Request, inp: Input)
    requires Guarded(call) && inp.fault.NoFault? && Seen(Get(s, Render(RateLimit(call.tenant))), inp.now) == Absent
    ensures LocalStep(s, Arrive(call), inp).req == Req(call, AtSlotGate, NO_MARKS)
  {
    hide Render, LimitsOf, CostOf, ShouldGuard, Apply, Get, LocalStep;
    FullBucketAdmits(call.tenant, call.path, inp.now);
    PaysRate(s, call, inp);
  }

  lemma {:induction false} Samples(s: Store, call: Request, inp: Input)
    requires IsHeavy(call.path) && call.tenant != "" && !inp.fault.Crash?
    ensures LocalStep(s, Req(call, AtSlotGate, NO_MARKS), inp)
            == Local(s, Req(call, Acquiring(inp.uuid, inp.host, inp.now), NO_MARKS), [])
  {
    hide IsHeavy;
  }

  /** What the acquire script finds has room for one more. */
  predicate HasRoom(c: Cell, capacity: nat, stamp: int) {
    (c.Present? ==> c.value.ZSet?)
    && |Semaphore.Evict(if c.Absent? then map[] else c.value.members, stamp - Semaphore.SLOT_TTL)| < capacity
  }

  lemma {:induction false} RoomAdmits(c: Cell, capacity: nat, stamp: int, id: string, now: int)
    requires HasRoom(Seen(c, now), capacity, stamp)
    ensures var out := Exec(c, Acquire(capacity, stamp, id), now);
            out.reply.Slot? && out.reply.handle.admitted
  {
    hide Semaphore.Evict;
  }

  lemma {:induction false} SlotAdmits(s: Store, r: Req, inp: Input)
    requires r.phase.Acquiring? && inp.fault.NoFault?
    requires HasRoom(Seen(Get(s, Render(Concurrency(r.call.tenant))), inp.now),
                     PlanFor(r.call.tenant).maxConcurrency, r.phase.stamp)
    ensures var l, key := LocalStep(s, r, inp), Render(Concurrency(r.call.tenant));
            l.req.call == r.call
            && l.req.phase == InView(Entering, Held(r.phase.slotId, r.phase.stamp, r.phase.sampledAt))
            && Get(l.store, key)
               == Exec(Get(s, key), Acquire(PlanFor(r.call.tenant).maxConcurrency, r.phase.stamp, r.phase.slotId),
                       inp.now).cell
  {
    hide Render, PlanFor, Exec, HasRoom, Seen, Get, Put;
    var key := Render(Concurrency(r.call.tenant));
    RoomAdmits(Get(s, key), PlanFor(r.call.tenant).maxConcurrency, r.phase.stamp, r.phase.slotId, inp.now);
    var out := Exec(Get(s, key), Acquire(PlanFor(r.call.tenant).maxConcurrency, r.phase.stamp, r.phase.slotId),
                    inp.now);
    GetPut(s, key, out.cell, key);
  }

  lemma {:induction false} EntersView(s: Store, r: Req, inp: Input)
    requires r.phase.InView? && r.phase.step.Entering? && r.call.tenant != "" && !inp.fault.Crash?
    ensures var l := LocalStep(s, r, inp);
            l.store == s && l.log == []
            && (r.call.path == GENERATE && r.call.body.GenerateBody? ==>
                  l.req == r.(phase := InView(Reading, r.phase.hold)))
            && (r.call.path == INGEST && r.call.body.IngestBody? ==>
                  l.req == r.(phase := InView(Claiming, r.phase.hold)))
  {
  }

  lemma {:induction false} NoSlotNeeded(s: Store, call: Request, inp: Input)
    requires !IsHeavy(call.path) && !inp.fault.Crash?
    ensures LocalStep(s, Req(call, AtSlotGate, NO_MARKS), inp)
            == Local(s, Req(call, InView(Entering, Unguarded), NO_MARKS), [])
  {
    hide IsHeavy;
  }

  // ---- Whole passages ----

  /** The first `n` steps meet no fault. */
  predicate FaultFree(inputs: seq<Input>, n: nat)
    requires n <= |inputs|
  {
    forall i :: 0 <= i < n ==> inputs[i].fault.NoFault?
  }

  /** Both gates find their keys gone: nothing was charged and no slot taken lately. */
  predicate GatesIdle(s: Store, tenant: string, rateAt: int, slotAt: int) {
    Seen(Get(s, Render(RateLimit(tenant))), rateAt) == Absent
    && Seen(Get(s, Render(Concurrency(tenant))), slotAt) == Absent
  }

  /** Two stores that differ in gate keys only. */
  ghost predicate Alike(s: Store, t: Store) {
    forall k: Key :: !k.RateLimit? && !k.Concurrency? ==> Get(s, Render(k)) == Get(t, Render(k))
  }

  lemma {:induction false} AlikeCell(s: Store, t: Store, k: Key)
    requires Alike(s, t) && !k.RateLimit? && !k.Concurrency?
    ensures Get(s, Render(k)) == Get(t, Render(k))
  {
    hide Get, Render;
  }

  /** The charge of an idle bucket touches the bucket only, for an hour. */
  lemma {:induction false} ChargeLeaves(s: Store, call: Request, inp: Input)
    requires Guarded(call) && inp.fault.NoFault? && Seen(Get(s, Render(RateLimit(call.tenant))), inp.now) == Absent
    ensures var after := LocalStep(s, Arrive(call), inp).store;
            && Alike(s, after)
            && Get(after, Render(Concurrency(call.tenant))) == Get(s, Render(Concurrency(call.tenant)))
            && Seen(Get(after, Render(RateLimit(call.tenant))), inp.now + 3_600_000_000) == Absent
  {
    hide LocalStep, Render, Get, Apply, LimitsOf, CostOf, ShouldGuard;
    FullBucketAdmits(call.tenant, call.path, inp.now);
    PaysRate(s, call, inp);
    ChargeExpires(Get(s, Render(RateLimit(call.tenant))), call, inp.now);
    RateIssue(call);
    NotOneKey(RateLimit(call.tenant), Concurrency(call.tenant));
    OthersUntouched(s, Arrive(call), inp, Concurrency(call.tenant));
    forall k: Key | !k.RateLimit? && !k.Concurrency?
      ensures Get(s, Render(k)) == Get(LocalStep(s, Arrive(call), inp).store, Render(k))
    {
      NotOneKey(RateLimit(call.tenant), k);
      OthersUntouched(s, Arrive(call), inp, k);
    }
  }

  lemma {:induction false} RateIssue(call: Request)
    ensures NextIssue(call, AtRateGate).Some? ==> NextIssue(call, AtRateGate).value.key == RateLimit(call.tenant)
  {
  }

  lemma {:induction false} ChargeExpires(c: Cell, call: Request, now: int)
    requires Seen(c, now) == Absent
    ensures Seen(Exec(c, Consume(LimitsOf(call.tenant), CostOf(call.path)), now).cell, now + 3_600_000_000) == Absent
  {
  }

  lemma {:induction false} EmptyHasRoom(tenant: string, stamp: int)
    ensures HasRoom(Absent, PlanFor(tenant).maxConcurrency, stamp)
  {
    assert Semaphore.Evict(map[], stamp - Semaphore.SLOT_TTL) == map[];
  }

  /** What an acquire leaves of an empty slot set. */
  lemma {:induction false} FirstSlot(c: Cell, tenant: string, stamp: int, id: string, now: int)
    requires Seen(c, now) == Absent
    ensures Exec(c, Acquire(PlanFor(tenant).maxConcurrency, stamp, id), now).cell
            == Present(ZSet(map[id := stamp]), At(now + 60_000_000))
  {
    assert Semaphore.Evict(map[], stamp - Semaphore.SLOT_TTL) == map[];
  }

  lemma {:induction false} TakesSlot(s: Store, call: Request, id: string, stamp: int, at: int, inp: Input)
    requires inp.fault.NoFault? && Seen(Get(s, Render(Concurrency(call.tenant))), inp.now) == Absent
    ensures var l := LocalStep(s, Req(call, Acquiring(id, stamp, at), NO_MARKS), inp);
            && l.req.call == call && l.req.phase == InView(Entering, Held(id, stamp, at)) && Alike(s, l.store)
            && Get(l.store, Render(RateLimit(call.tenant))) == Get(s, Render(RateLimit(call.tenant)))
            && Get(l.store, Render(Concurrency(call.tenant)))
               == Present(ZSet(map[id := stamp]), At(inp.now + 60_000_000))
  {
    hide LocalStep, Render, Exec, PlanFor, Get, Seen, HasRoom;
    var r := Req(call, Acquiring(id, stamp, at), NO_MARKS);
    EmptyHasRoom(call.tenant, stamp);
    SlotAdmits(s, r, inp);
    FirstSlot(Get(s, Render(Concurrency(call.tenant))), call.tenant, stamp, id, inp.now);
    SlotIssue(r);
    NotOneKey(Concurrency(call.tenant), RateLimit(call.tenant));
    OthersUntouched(s, r, inp, RateLimit(call.tenant));
    forall k: Key | !k.RateLimit? && !k.Concurrency?
      ensures Get(s, Render(k)) == Get(LocalStep(s, r, inp).store, Render(k))
    {
      NotOneKey(Concurrency(call.tenant), k);
      OthersUntouched(s, r, inp, k);
    }
  }

  lemma {:induction false} SlotIssue(r: Req)
    requires r.phase.Acquiring?
    ensures NextIssue(r.call, r.phase).Some? && NextIssue(r.call, r.phase).value.key == Concurrency(r.call.tenant)
  {
  }

  lemma {:induction false} AlikeTwice(s: Store, t: Store, u: Store)
    requires Alike(s, t) && Alike(t, u)
    ensures Alike(s, u)
  {
    hide Get, Render;
  }

  lemma {:induction false} HeavySamples(s: Store, call: Request, inputs: seq<Input>)
    requires IsHeavy(call.path) && call.tenant != "" && |inputs| >= 2
    requires inputs[0].fault.NoFault? && inputs[1].fault.NoFault?
    requires Seen(Get(s, Render(RateLimit(call.tenant))), inputs[0].now) == Absent
    ensures var run := Solo(s, Arrive(call), inputs, 2);
            && run.req == Req(call, Acquiring(inputs[1].uuid, inputs[1].host, inputs[1].now), NO_MARKS)
            && Alike(s, run.store)
            && Get(run.store, Render(Concurrency(call.tenant))) == Get(s, Render(Concurrency(call.tenant)))
            && Seen(Get(run.store, Render(RateLimit(call.tenant))), inputs[0].now + 3_600_000_000) == Absent
  {
    HeavyIsGuarded(call);
    hide LocalStep, Solo, Get, Render, IsHeavy, ShouldGuard, Alike, Guarded, Seen;
    SoloNext(s, Arrive(call), inputs, 0);
    SoloNext(s, Arrive(call), inputs, 1);
    RatePasses(s, call, inputs[0]);
    ChargeLeaves(s, call, inputs[0]);
    Samples(Solo(s, Arrive(call), inputs, 1).store, call, inputs[1]);
  }

  /** A heavy request passes two idle gates in three steps and enters its view with the only
      slot. */
  lemma {:induction false} HeavyEnters(s: Store, call: Request, inputs: seq<Input>)
    requires IsHeavy(call.path) && call.tenant != "" && |inputs| >= 3 && FaultFree(inputs, 3)
    requires GatesIdle(s, call.tenant, inputs[0].now, inputs[2].now)
    ensures var run, hold := Solo(s, Arrive(call), inputs, 3), Held(inputs[1].uuid, inputs[1].host, inputs[1].now);
            && run.req.call == call && run.req.phase == InView(Entering, hold) && Alike(s, run.store)
            && Get(run.store, Render(Concurrency(call.tenant)))
               == Present(ZSet(map[hold.slotId := hold.stamp]), At(inputs[2].now + 60_000_000))
            && GatesIdle(run.store, call.tenant, inputs[0].now + 3_600_000_000, inputs[2].now + 60_000_000)
  {
    hide LocalStep, Solo, Get, Render, IsHeavy, Alike;
    var sampled := Solo(s, Arrive(call), inputs, 2).store;
    HeavySamples(s, call, inputs);
    SoloNext(s, Arrive(call), inputs, 2);
    TakesSlot(sampled, call, inputs[1].uuid, inputs[1].host, inputs[1].now, inputs[2]);
    AlikeTwice(s, sampled, Solo(s, Arrive(call), inputs, 3).store);
  }

  lemma {:induction false} HeavyIsGuarded(call: Request)
    requires IsHeavy(call.path) && call.tenant != ""
    ensures Guarded(call)
  {
    hide ShouldGuard;
  }

  /** An ingest passes an idle rate gate in two steps and needs no slot. */
  lemma {:induction false} LightEnters(s: Store, call: Request, inputs: seq<Input>)
    requires call.path == INGEST && call.tenant != "" && |inputs| >= 2 && FaultFree(inputs, 2)
    requires Seen(Get(s, Render(RateLimit(call.tenant))), inputs[0].now) == Absent
    ensures var run := Solo(s, Arrive(call), inputs, 2);
            run.req == Req(call, InView(Entering, Unguarded), NO_MARKS) && Alike(s, run.store)
  {
    var r := Arrive(call);
    assert Guarded(call);
    hide LocalStep, Solo, Get, Render, Alike, ShouldGuard;
    SoloNext(s, r, inputs, 0);
    SoloNext(s, r, inputs, 1);
    RatePasses(s, call, inputs[0]);
    ChargeLeaves(s, call, inputs[0]);
    NoSlotNeeded(Solo(s, r, inputs, 1).store, call, inputs[1]);
  }

  /** A run goes on from where it got to. */
  lemma {:induction false} SoloShift(s: Store, r: Req, inputs: seq<Input>, m: nat, k: nat)
    requires m + k <= |inputs|
    ensures var middle := Solo(s, r, inputs, m);
            Solo(s, r, inputs, m + k).store == Solo(middle.store, middle.req, inputs[m..], k).store
            && Solo(s, r, inputs, m + k).req == Solo(middle.store, middle.req, inputs[m..], k).req
  {
    hide LocalStep;
    if k > 0 {
      SoloShift(s, r, inputs, m, k - 1);
      assert inputs[m..][k - 1] == inputs[m + k - 1];
    }
  }

  // ---- The way out ----

  /** The only holder leaves no slot set behind. */
  lemma {:induction false} Leaves(s: Store, r: Req, inp: Input, id: string)
    requires r.phase.Releasing? && r.phase.hold.Held? && inp.fault.NoFault?
    requires var c := Get(s, Render(Concurrency(r.call.tenant)));
             c.Present? && c.value == ZSet(map[r.phase.hold.slotId := r.phase.hold.stamp])
    ensures var l := LocalStep(s, r, inp);
            && l.req.phase == Finished(r.phase.response)
            && Get(l.store, Render(Concurrency(r.call.tenant))) == Absent
            && Get(l.store, Render(Invoice(r.call.tenant, id))) == Get(s, Render(Invoice(r.call.tenant, id)))
  {
    NotOneKey(Concurrency(r.call.tenant), Invoice(r.call.tenant, id));
    hide Render;
    assert map[r.phase.hold.slotId := r.phase.hold.stamp] - {r.phase.hold.slotId} == map[];
  }

  /** No step of a view touches the slot set. */
  lemma {:induction false} SlotsUntouched(s: Store, r: Req, inp: Input)
    requires r.phase.InView?
    ensures var key := Render(Concurrency(r.call.tenant)); Get(LocalStep(s, r, inp).store, key) == Get(s, key)
  {
    ViewKey(r);
    hide LocalStep, Render, Get, NextIssue;
    var i := NextIssue(r.call, r.phase);
    if i.Some? { NotOneKey(i.value.key, Concurrency(r.call.tenant)); }
    OthersUntouched(s, r, inp, Concurrency(r.call.tenant));
  }

  lemma {:induction false} ViewKey(r: Req)
    requires r.phase.InView?
    ensures var i := NextIssue(r.call, r.phase); i.Some? ==> !i.value.key.Concurrency? && !i.value.key.RateLimit?
  {
  }
}
