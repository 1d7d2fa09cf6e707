/** The semaphore history theorems carried over to the whole platform: the slot key of a tenant
    is the semaphore run on the tenant's logged acquires and releases, and requests that hold
    a slot are admitted, unreleased acquires of that log. */
module SlotHistory {
  import opened TenantPlan
  import opened KeySchema
  import opened RedisStore
  import opened Program
  import opened Platform
  import opened Admission
  import Semaphore

  predicate OnSlotKey(e: LogEntry, tenant: string) {
    e.key == Render(Concurrency(tenant)) && (e.op.cmd.Acquire? || e.op.cmd.Release?)
  }

  function EventOf(op: Op): Semaphore.Event
    requires op.cmd.Acquire? || op.cmd.Release?
  {
    match op.cmd
    case Acquire(_, stamp, id) => Semaphore.Event.Acquire(op.now, stamp, id)
    case Release(id) => Semaphore.Event.Release(op.now, id)
  }

  /** The slot commands of one tenant, in the order Redis ran them. */
  function SlotEvents(log: seq<LogEntry>, tenant: string): seq<Semaphore.Event> {
    if log == [] then []
    else
      var e := log[|log| - 1];
      var init := SlotEvents(log[..|log| - 1], tenant);
      if OnSlotKey(e, tenant) then init + [EventOf(e.op)] else init
  }

  lemma {:induction false} SlotEventsSnoc(log: seq<LogEntry>, e: LogEntry, tenant: string)
    ensures SlotEvents(log + [e], tenant)
            == if OnSlotKey(e, tenant) then SlotEvents(log, tenant) + [EventOf(e.op)] else SlotEvents(log, tenant)
  {
    assert (log + [e])[..|log|] == log;
  }

  // ---- Runs that share a prefix ----

  lemma {:induction false} SlotsOfPrefix(capacity: nat, evs: seq<Semaphore.Event>, e: Semaphore.Event, n: nat)
    requires n <= |evs|
    ensures Semaphore.SlotsAfter(capacity, evs + [e], n) == Semaphore.SlotsAfter(capacity, evs, n)
  {
    hide Semaphore.Step;
    if n > 0 { SlotsOfPrefix(capacity, evs, e, n - 1); }
  }

  lemma {:induction false} AdmittedOfPrefix(capacity: nat, evs: seq<Semaphore.Event>, e: Semaphore.Event, i: nat)
    requires i < |evs|
    ensures Semaphore.Admitted(capacity, evs + [e], i) == Semaphore.Admitted(capacity, evs, i)
  {
    hide Semaphore.Admit, Semaphore.SlotsAfter, Semaphore.Visible;
    SlotsOfPrefix(capacity, evs, e, i);
  }

  // ---- Refinement: the slot key is the semaphore run ----

  ghost predicate SlotView(sys: Sys, tenant: string) {
    var evs := SlotEvents(sys.log, tenant);
    Get(sys.store, Render(Concurrency(tenant)))
    == SlotCell(Semaphore.SlotsAfter(PlanFor(tenant).maxConcurrency, evs, |evs|))
  }

  lemma {:induction false} SlotViewStep(sys: Sys, item: Item, tenant: string)
    requires SlotView(sys, tenant)
    ensures SlotView(Step(sys, item), tenant)
    ensures var e := Executed(sys, item);
            var evs := SlotEvents(sys.log, tenant);
            e.Some? && OnSlotKey(e.value, tenant) ==>
              SlotEvents(Step(sys, item).log, tenant) == evs + [EventOf(e.value.op)]
              && (e.value.op.cmd.Acquire? ==>
                    e.value.reply.Slot?
                    && Decided(PlanFor(tenant).maxConcurrency, evs + [EventOf(e.value.op)], |evs|,
                               e.value.reply.handle))
    ensures Executed(sys, item) == None || !OnSlotKey(Executed(sys, item).value, tenant) ==>
              SlotEvents(Step(sys, item).log, tenant) == SlotEvents(sys.log, tenant)
  {
    hide Step, Executed, Exec, Render, Get, Put, NextIssue, PlanFor, SlotEvents, SlotCell, EventOf;
    StepEffect(sys, item);
    SlotCellStep(sys, item, tenant);
    if Executed(sys, item).Some? {
      var e, r := Executed(sys, item).value, sys.reqs[item.rid];
      SlotIssues(r.call, r.phase, tenant);
      SlotEventsSnoc(sys.log, e, tenant);
      if OnSlotKey(e, tenant) {
        SlotEventRuns(PlanFor(tenant).maxConcurrency, SlotEvents(sys.log, tenant), e.op);
      }
    }
  }

  /** A reply of the script is what the semaphore run says about its last acquire. */
  predicate Decided(capacity: nat, evs: seq<Semaphore.Event>, i: nat, handle: Semaphore.Handle) {
    i < |evs| && evs[i].Acquire? && (handle.admitted <==> Semaphore.Admitted(capacity, evs, i))
    && handle.inFlight == Semaphore.Reported(capacity, evs, i)
  }

  /** One more command on the slot key is one more step of the semaphore model. */
  lemma {:induction false} SlotEventRuns(capacity: nat, evs: seq<Semaphore.Event>, op: Op)
    requires op.cmd.Release? || (op.cmd.Acquire? && op.cmd.capacity == capacity)
    ensures var out := Exec(SlotCell(Semaphore.SlotsAfter(capacity, evs, |evs|)), op.cmd, op.now);
            var more := evs + [EventOf(op)];
            && out.cell == SlotCell(Semaphore.SlotsAfter(capacity, more, |more|))
            && (op.cmd.Acquire? ==>
                  out.reply.Slot? && Decided(capacity, more, |evs|, out.reply.handle))
  {
    hide Exec, Semaphore.Step, Semaphore.Admit, SlotCell, Semaphore.Visible;
    SlotCommandsAreSteps(capacity, Semaphore.SlotsAfter(capacity, evs, |evs|), EventOf(op));
    SlotsOfPrefix(capacity, evs, EventOf(op), |evs|);
  }

  lemma {:induction false} SlotRefinement(start: Sys, items: seq<Item>, n: nat, tenant: string)
    requires Initial(start) && n <= |items|
    ensures SlotView(State(start, items, n), tenant)
  {
    if n == 0 {
      NotPricing(Concurrency(tenant), start);
    } else {
      hide *;
      StateNext(start, items, n);
      SlotRefinement(start, items, n - 1, tenant);
      SlotViewStep(State(start, items, n - 1), items[n - 1], tenant);
    }
  }

  // ---- Requests and their entries in the log ----

  predicate AcquiredAs(e: Semaphore.Event, id: string) {
    e.Acquire? && e.id == id
  }

  /** No identifier was tried twice, every one came from the schedule, and a request about to
      run its script has one that was not tried yet. */
  ghost predicate EventsNamed(sys: Sys, items: seq<Item>, n: nat, tenant: string)
    requires n <= |items|
  {
    var evs := SlotEvents(sys.log, tenant);
    && Semaphore.FreshIds(evs)
    && (forall i :: 0 <= i < |evs| && evs[i].Acquire? ==> exists j :: 0 <= j < n && items[j].input.uuid == evs[i].id)
    && forall r, i :: r in sys.reqs && sys.reqs[r].phase.Acquiring? && 0 <= i < |evs| ==>
         !AcquiredAs(evs[i], sys.reqs[r].phase.slotId)
  }

  /** The log entry that gave a request its slot. */
  predicate Gave(capacity: nat, evs: seq<Semaphore.Event>, i: nat, hold: Hold)
    requires hold.Held?
  {
    i < |evs| && AcquiredAs(evs[i], hold.slotId) && evs[i].stamp == hold.stamp
    && Semaphore.Admitted(capacity, evs, i) && Semaphore.Unreleased(evs, i, |evs|)
  }

  ghost predicate HolderLogged(sys: Sys, tenant: string, r: nat)
    requires r in sys.reqs && HoldOf(sys.reqs[r].phase).Held?
  {
    exists i :: Gave(PlanFor(tenant).maxConcurrency, SlotEvents(sys.log, tenant), i, HoldOf(sys.reqs[r].phase))
  }

  ghost predicate HoldersLogged(sys: Sys, tenant: string) {
    forall r :: r in Holders(sys, tenant) ==> HolderLogged(sys, tenant, r)
  }

  lemma {:induction false} GaveStays(capacity: nat, evs: seq<Semaphore.Event>, e: Semaphore.Event, i: nat, hold: Hold)
    requires hold.Held? && Gave(capacity, evs, i, hold) && (e.Release? ==> e.id != hold.slotId)
    ensures Gave(capacity, evs + [e], i, hold)
  {
    hide Semaphore.Admitted;
    AdmittedOfPrefix(capacity, evs, e, i);
  }

  lemma {:induction false} AcquirerMoves(s: Store, r: Req, inp: Input)
    ensures var l := LocalStep(s, r, inp);
            r.phase.Acquiring? && l.log != [] ==> !l.req.phase.Acquiring?
  {
    hide Exec, Render, Put, Get, PlanFor, Record;
    LocalStepMoves(s, r, inp);
  }

  /** A slot event added by a step is the stepping request's own, and it has moved on. */
  lemma {:induction false} NewEvent(sys: Sys, item: Item, tenant: string)
    requires SlotView(sys, tenant)
    ensures var evs, more := SlotEvents(sys.log, tenant), SlotEvents(Step(sys, item).log, tenant);
            more == evs
            || (item.rid in sys.reqs && |more| == |evs| + 1 && more == evs + [more[|evs|]]
                && more[|evs|].at == item.input.now && sys.reqs[item.rid].call.tenant == tenant
                && var e, r := more[|evs|], sys.reqs[item.rid];
                   if e.Acquire? then
                     r.phase.Acquiring? && e.id == r.phase.slotId && e.stamp == r.phase.stamp
                     && !Step(sys, item).reqs[item.rid].phase.Acquiring?
                   else HoldOf(r.phase).Held? && e.id == HoldOf(r.phase).slotId && r.phase.Releasing?)
  {
    hide LocalStep, SlotEvents, Render, PlanFor, NextIssue;
    SlotViewStep(sys, item, tenant);
    StepEffect(sys, item);
    if Executed(sys, item).Some? {
      var e, r := Executed(sys, item).value, sys.reqs[item.rid];
      SlotIssues(r.call, r.phase, tenant);
      AcquirerMoves(sys.store, r, item.input);
    }
  }

  lemma {:induction false} AcquiringNext(sys: Sys, item: Item, r: nat)
    requires r in Step(sys, item).reqs && Step(sys, item).reqs[r].phase.Acquiring?
    ensures r in sys.reqs
    ensures Step(sys, item).reqs[r].phase == sys.reqs[r].phase
            || (r == item.rid && Step(sys, item).reqs[r].phase.slotId == item.input.uuid)
  {
    hide LocalStep;
    if item.rid in sys.reqs { HoldStep(sys.store, sys.reqs[item.rid], item.input); }
  }

  lemma {:induction false} UntriedStep(start: Sys, items: seq<Item>, n: nat, tenant: string, r: nat, i: nat)
    requires 0 < n <= |items| && FreshIds(items)
    requires EventsNamed(State(start, items, n - 1), items, n - 1, tenant)
    requires DistinctIds(State(start, items, n - 1)) && SlotView(State(start, items, n - 1), tenant)
    requires var after := Step(State(start, items, n - 1), items[n - 1]);
             r in after.reqs && after.reqs[r].phase.Acquiring? && i < |SlotEvents(after.log, tenant)|
    ensures var after := Step(State(start, items, n - 1), items[n - 1]);
            !AcquiredAs(SlotEvents(after.log, tenant)[i], after.reqs[r].phase.slotId)
  {
    hide State, Step, SlotEvents, Render, PlanFor, SlotView;
    var sys, item := State(start, items, n - 1), items[n - 1];
    var after := Step(sys, item);
    NewEvent(sys, item, tenant);
    AcquiringNext(sys, item, r);
    var evs, more := SlotEvents(sys.log, tenant), SlotEvents(after.log, tenant);
    if i < |evs| {
      assert more[i] == evs[i];
    } else if more[i].Acquire? {
      assert Knows(sys.reqs[item.rid], more[i].id);
      assert r != item.rid && Knows(sys.reqs[r], after.reqs[r].phase.slotId);
    }
  }

  lemma {:induction false} EventsNamedStep(start: Sys, items: seq<Item>, n: nat, tenant: string)
    requires 0 < n <= |items| && FreshIds(items)
    requires EventsNamed(State(start, items, n - 1), items, n - 1, tenant)
    requires var sys := State(start, items, n - 1);
             DistinctIds(sys) && IdsFrom(sys, items, n - 1) && SlotView(sys, tenant)
    ensures EventsNamed(State(start, items, n), items, n, tenant)
  {
    hide State, Step, SlotEvents, Render, PlanFor, SlotView, DistinctIds, FreshIds;
    var sys, item := State(start, items, n - 1), items[n - 1];
    StateNext(start, items, n);
    var after := Step(sys, item);
    var evs, more := SlotEvents(sys.log, tenant), SlotEvents(after.log, tenant);
    NewEvent(sys, item, tenant);
    if more != evs && more[|evs|].Acquire? { assert Knows(sys.reqs[item.rid], more[|evs|].id); }
    forall i | 0 <= i < |more| && more[i].Acquire? ensures exists j :: 0 <= j < n && items[j].input.uuid == more[i].id {
      if i < |evs| {
        assert more[i] == evs[i];
        var j :| 0 <= j < n - 1 && items[j].input.uuid == evs[i].id;
      } else {
        var j :| 0 <= j < n - 1 && items[j].input.uuid == more[i].id;
      }
    }
    forall r, i | r in after.reqs && after.reqs[r].phase.Acquiring? && 0 <= i < |more|
      ensures !AcquiredAs(more[i], after.reqs[r].phase.slotId)
    {
      UntriedStep(start, items, n, tenant, r, i);
    }
    FreshSnoc(sys, item, evs, more);
  }

  lemma {:induction false} FreshSnoc(sys: Sys, item: Item, evs: seq<Semaphore.Event>, more: seq<Semaphore.Event>)
    requires Semaphore.FreshIds(evs)
    requires more == evs || (|more| == |evs| + 1 && more == evs + [more[|evs|]])
    requires more != evs && more[|evs|].Acquire? ==>
               item.rid in sys.reqs && sys.reqs[item.rid].phase.Acquiring?
               && more[|evs|].id == sys.reqs[item.rid].phase.slotId
    requires forall r, i :: r in sys.reqs && sys.reqs[r].phase.Acquiring? && 0 <= i < |evs| ==>
               !AcquiredAs(evs[i], sys.reqs[r].phase.slotId)
    ensures Semaphore.FreshIds(more)
  {
    forall i, j | 0 <= i < j < |more| && more[i].Acquire? && more[j].Acquire? ensures more[i].id != more[j].id {
      assert more[i] == evs[i];
      if j == |evs| { assert !AcquiredAs(evs[i], sys.reqs[item.rid].phase.slotId); }
    }
  }

  lemma {:induction false} EventsNamedInvariant(start: Sys, items: seq<Item>, n: nat, tenant: string)
    requires Initial(start) && FreshIds(items) && n <= |items|
    ensures EventsNamed(State(start, items, n), items, n, tenant)
  {
    hide *;
    if n == 0 {
      NamedAtStart(start, items, tenant);
    } else {
      EventsNamedInvariant(start, items, n - 1, tenant);
      IdsInvariant(start, items, n - 1);
      SlotRefinement(start, items, n - 1, tenant);
      EventsNamedStep(start, items, n, tenant);
    }
  }

  lemma {:induction false} NamedAtStart(start: Sys, items: seq<Item>, tenant: string)
    requires Initial(start)
    ensures EventsNamed(State(start, items, 0), items, 0, tenant)
    ensures HoldersLogged(State(start, items, 0), tenant)
  {
  }

  // ---- Holders are admitted, unreleased acquires of the log ----

  lemma {:induction false} HolderLoggedStep(sys: Sys, item: Item, tenant: string, r: nat)
    requires SlotView(sys, tenant) && AllOrderly(sys) && DistinctIds(sys) && HoldersLogged(sys, tenant)
    requires r in Holders(Step(sys, item), tenant)
    ensures HolderLogged(Step(sys, item), tenant, r)
  {
    hide LocalStep, SlotEvents, Render, Get, PlanFor, Orderly, Semaphore.Admitted, Gave;
    var after, cap := Step(sys, item), PlanFor(tenant).maxConcurrency;
    var evs, more := SlotEvents(sys.log, tenant), SlotEvents(after.log, tenant);
    NewEvent(sys, item, tenant);
    SlotViewStep(sys, item, tenant);
    StepKeepsCalls(sys, item);
    var hold := HoldOf(after.reqs[r].phase);
    if r == item.rid {
      HoldStep(sys.store, sys.reqs[r], item.input);
      ReleaseStep(sys.store, sys.reqs[r], item.input);
    }
    if HoldOf(sys.reqs[r].phase) == hold {
      assert HolderLogged(sys, tenant, r);
      var i :| Gave(cap, evs, i, hold);
      if more != evs {
        if more[|evs|].Release? {
          assert Knows(sys.reqs[r], hold.slotId) && Knows(sys.reqs[item.rid], more[|evs|].id);
        }
        GaveStays(cap, evs, more[|evs|], i, hold);
      }
      assert Gave(cap, more, i, hold);
    } else {
      StepEffect(sys, item);
      SlotIssues(sys.reqs[r].call, sys.reqs[r].phase, tenant);
      GaveNow(cap, evs, more, hold);
    }
  }

  lemma {:induction false} GaveNow(capacity: nat, evs: seq<Semaphore.Event>, more: seq<Semaphore.Event>, hold: Hold)
    requires |more| == |evs| + 1 && hold.Held? && AcquiredAs(more[|evs|], hold.slotId)
             && more[|evs|].stamp == hold.stamp
    requires Semaphore.Admitted(capacity, more, |evs|)
    ensures Gave(capacity, more, |evs|, hold)
  {
    hide Semaphore.Admitted;
  }

  lemma {:induction false} HoldersLoggedInvariant(start: Sys, items: seq<Item>, n: nat, tenant: string)
    requires Initial(start) && FreshIds(items) && n <= |items|
    ensures HoldersLogged(State(start, items, n), tenant)
  {
    hide State, Step, Initial, FreshIds, HolderLogged, SlotView, IdsFrom, AllOrderly, DistinctIds;
    if n == 0 {
      NamedAtStart(start, items, tenant);
    } else {
      HoldersLoggedInvariant(start, items, n - 1, tenant);
      IdsInvariant(start, items, n - 1);
      SlotRefinement(start, items, n - 1, tenant);
      StateNext(start, items, n);
      forall r | r in Holders(State(start, items, n), tenant)
        ensures HoldOf(State(start, items, n).reqs[r].phase).Held? && HolderLogged(State(start, items, n), tenant, r)
      {
        HolderLoggedStep(State(start, items, n - 1), items[n - 1], tenant, r);
      }
    }
  }

  // ---- The history theorems on the platform ----

  lemma {:induction false} MembersAreVisible(s: Semaphore.Slots, now: int)
    ensures Members(Seen(SlotCell(s), now)) == Semaphore.Visible(s, now)
  {
  }

  /** Agreement with history, on the platform: in every interleaving with any faults, clocks
      and expiries, a slot is in a tenant's set at `now` if and only if the tenant's command
      log has an admitted, unreleased acquire for it that outlives every later cutoff and
      whose key never expired. */
  lemma {:induction false} SlotSetFromLog(start: Sys, items: seq<Item>, n: nat, tenant: string, now: int)
    requires Initial(start) && FreshIds(items) && n <= |items|
    ensures var sys := State(start, items, n);
            var evs := SlotEvents(sys.log, tenant);
            Semaphore.Agrees(PlanFor(tenant).maxConcurrency, evs, |evs|, now,
                             Members(Seen(Get(sys.store, Render(Concurrency(tenant))), now)))
  {
    var sys := State(start, items, n);
    var evs := SlotEvents(sys.log, tenant);
    SlotRefinement(start, items, n, tenant);
    EventsNamedInvariant(start, items, n, tenant);
    hide State, Initial, FreshIds, SlotEvents, PlanFor, Render, Get, SlotCell, Members, Seen, Semaphore.Agrees;
    Semaphore.HistoryAgrees(PlanFor(tenant).maxConcurrency, evs, |evs|, now);
    MembersAreVisible(Semaphore.SlotsAfter(PlanFor(tenant).maxConcurrency, evs, |evs|), now);
  }

  /** The slot gate decides by the log: a scheduled acquire is admitted if and only if fewer
      holders than the plan's cap survive in the log at its own cutoff, and it reports that
      number, with itself if admitted. */
  lemma {:induction false} SlotGateDecision(start: Sys, items: seq<Item>, n: nat, tenant: string, e: LogEntry)
    requires Initial(start) && FreshIds(items) && n < |items| && Executed(State(start, items, n), items[n]) == Some(e)
    requires e.op.cmd.Acquire? && e.key == Render(Concurrency(tenant))
    ensures var evs := SlotEvents(State(start, items, n + 1).log, tenant);
            var last := |evs| - 1;
            last >= 0 && evs[last].Acquire? && e.reply.Slot?
            && (e.reply.handle.admitted <==>
                |Semaphore.Counted(PlanFor(tenant).maxConcurrency, evs, last)| < PlanFor(tenant).maxConcurrency)
            && e.reply.handle.inFlight == |Semaphore.Counted(PlanFor(tenant).maxConcurrency, evs, last)|
                                          + if e.reply.handle.admitted then 1 else 0
  {
    hide *;
    var sys, after := State(start, items, n), State(start, items, n + 1);
    SlotRefinement(start, items, n, tenant);
    StateNext(start, items, n + 1);
    LastEvent(sys, items[n], tenant, e);
    EventsNamedInvariant(start, items, n + 1, tenant);
    NamedIsFresh(after, items, n + 1, tenant);
    var evs := SlotEvents(after.log, tenant);
    Semaphore.AdmissionFromLog(PlanFor(tenant).maxConcurrency, evs, |evs| - 1);
  }

  lemma {:induction false} LastEvent(sys: Sys, item: Item, tenant: string, e: LogEntry)
    requires SlotView(sys, tenant) && Executed(sys, item) == Some(e)
    requires e.op.cmd.Acquire? && e.key == Render(Concurrency(tenant))
    ensures var evs := SlotEvents(Step(sys, item).log, tenant);
            |evs| > 0 && evs[|evs| - 1].Acquire? && e.reply.Slot?
            && (e.reply.handle.admitted <==> Semaphore.Admitted(PlanFor(tenant).maxConcurrency, evs, |evs| - 1))
            && e.reply.handle.inFlight == Semaphore.Reported(PlanFor(tenant).maxConcurrency, evs, |evs| - 1)
  {
    hide Step, SlotEvents, PlanFor, Render, Executed, Semaphore.Admitted, Semaphore.Reported, SlotView;
    SlotViewStep(sys, item, tenant);
  }

  /** Holders of the tenant whose stamps lie in a half-open interval. */
  function HoldersStamped(sys: Sys, tenant: string, after: int, upTo: int): set<nat> {
    set r | r in Holders(sys, tenant) && after < HoldOf(sys.reqs[r].phase).stamp <= upTo
  }

  lemma {:induction false} HoldersInject(sys: Sys, capacity: nat, evs: seq<Semaphore.Event>, rs: set<nat>,
                                         positions: set<nat>)
    requires DistinctIds(sys)
    requires forall r :: r in rs ==>
               r in sys.reqs && HoldOf(sys.reqs[r].phase).Held?
               && exists i :: i in positions && Gave(capacity, evs, i, HoldOf(sys.reqs[r].phase))
    ensures |rs| <= |positions|
  {
    hide Semaphore.Admitted, Semaphore.Unreleased;
    if rs != {} {
      var r :| r in rs;
      var i :| i in positions && Gave(capacity, evs, i, HoldOf(sys.reqs[r].phase));
      assert Knows(sys.reqs[r], HoldOf(sys.reqs[r].phase).slotId);
      forall q | q in rs - {r}
        ensures exists j :: j in positions - {i} && Gave(capacity, evs, j, HoldOf(sys.reqs[q].phase))
      {
        var j :| j in positions && Gave(capacity, evs, j, HoldOf(sys.reqs[q].phase));
        assert Knows(sys.reqs[q], HoldOf(sys.reqs[q].phase).slotId);
        assert j in positions - {i};
      }
      HoldersInject(sys, capacity, evs, rs - {r}, positions - {i});
    }
  }

  lemma {:induction false} HoldersAreHeld(sys: Sys, tenant: string, after: int, upTo: int)
    requires HoldersLogged(sys, tenant) && DistinctIds(sys)
    ensures var evs := SlotEvents(sys.log, tenant);
            |HoldersStamped(sys, tenant, after, upTo)|
            <= |Semaphore.HeldBetween(PlanFor(tenant).maxConcurrency, evs, |evs|, after, upTo)|
  {
    hide SlotEvents, PlanFor, Semaphore.Admitted, Semaphore.Unreleased;
    var evs, cap := SlotEvents(sys.log, tenant), PlanFor(tenant).maxConcurrency;
    var rs, positions := HoldersStamped(sys, tenant, after, upTo), Semaphore.HeldBetween(cap, evs, |evs|, after, upTo);
    forall r | r in rs ensures exists i :: i in positions && Gave(cap, evs, i, HoldOf(sys.reqs[r].phase)) {
      assert HolderLogged(sys, tenant, r);
      var i :| Gave(cap, evs, i, HoldOf(sys.reqs[r].phase));
      assert i in positions;
    }
    HoldersInject(sys, cap, evs, rs, positions);
  }

  // ---- Slow holders ----

  predicate ScriptIsPrompt(sys: Sys, item: Item, tenant: string, delay: nat) {
    item.rid in sys.reqs && sys.reqs[item.rid].call.tenant == tenant && sys.reqs[item.rid].phase.Acquiring? ==>
      item.input.now <= sys.reqs[item.rid].phase.sampledAt + delay
  }

  /** The tenant's slot scripts run at most `delay` after their clock reads. */
  ghost predicate PromptScripts(start: Sys, items: seq<Item>, tenant: string, delay: nat) {
    forall k :: 0 <= k < |items| ==> ScriptIsPrompt(State(start, items, k), items[k], tenant, delay)
  }

  /** The log so far, and the clock reads of requests about to run their scripts. */
  ghost predicate OnOneClock(sys: Sys, tenant: string, delay: nat, latest: int) {
    var evs := SlotEvents(sys.log, tenant);
    && Semaphore.Sampled(evs, delay) && Semaphore.Past(evs, latest)
    && forall r :: r in sys.reqs && sys.reqs[r].phase.Acquiring? ==>
         sys.reqs[r].phase.stamp == sys.reqs[r].phase.sampledAt <= latest
  }

  lemma {:induction false} OnOneClockStep(sys: Sys, item: Item, tenant: string, delay: nat, latest: int)
    requires OnOneClock(sys, tenant, delay, latest) && SlotView(sys, tenant) && ScriptIsPrompt(sys, item, tenant, delay)
    requires latest <= item.input.now && item.input.host == item.input.now
    ensures OnOneClock(Step(sys, item), tenant, delay, item.input.now)
  {
    hide LocalStep, SlotEvents, Render, PlanFor, SlotView;
    NewEvent(sys, item, tenant);
    if item.rid in sys.reqs { HoldStep(sys.store, sys.reqs[item.rid], item.input); }
  }

  lemma {:induction false} OnOneClockInvariant(start: Sys, items: seq<Item>, n: nat, tenant: string, delay: nat)
    requires Initial(start) && Forward(items) && Skewed(items, 0) && PromptScripts(start, items, tenant, delay)
    requires n <= |items| && items != []
    ensures OnOneClock(State(start, items, n), tenant, delay,
                       if n == 0 then items[0].input.now else items[n - 1].input.now)
  {
    hide *;
    if n == 0 {
      ClockAtStart(start, items, tenant, delay);
    } else {
      OnOneClockInvariant(start, items, n - 1, tenant, delay);
      SlotRefinement(start, items, n - 1, tenant);
      ClockConditions(start, items, n - 1, tenant, delay);
      StateNext(start, items, n);
      OnOneClockStep(State(start, items, n - 1), items[n - 1], tenant, delay,
                     if n == 1 then items[0].input.now else items[n - 2].input.now);
    }
  }

  lemma {:induction false} ClockAtStart(start: Sys, items: seq<Item>, tenant: string, delay: nat)
    requires Initial(start)
    ensures forall latest :: OnOneClock(State(start, items, 0), tenant, delay, latest)
  {
  }

  lemma {:induction false} ClockConditions(start: Sys, items: seq<Item>, k: nat, tenant: string, delay: nat)
    requires k < |items| && Forward(items) && Skewed(items, 0) && PromptScripts(start, items, tenant, delay)
    ensures ScriptIsPrompt(State(start, items, k), items[k], tenant, delay)
    ensures (if k == 0 then items[0].input.now else items[k - 1].input.now) <= items[k].input.now == items[k].input.host
  {
    hide State, ScriptIsPrompt;
  }

  lemma {:induction false} LogIsSampled(start: Sys, items: seq<Item>, n: nat, tenant: string, delay: nat)
    requires Initial(start) && Forward(items) && Skewed(items, 0) && PromptScripts(start, items, tenant, delay)
    requires n <= |items|
    ensures Semaphore.Sampled(SlotEvents(State(start, items, n).log, tenant), delay)
  {
    hide State, Initial, Forward, Skewed, PromptScripts, SlotEvents;
    if items == [] {
      ClockAtStart(start, items, tenant, delay);
      assert OnOneClock(State(start, items, 0), tenant, delay, 0);
    } else {
      OnOneClockInvariant(start, items, n, tenant, delay);
    }
  }

  /** Slow-holder bound on the platform: whatever is evicted, expires, crashes or fails, when
      the clock does not step back, hosts agree with it, and slot scripts run at most `delay`
      after their clock reads, at most `k` times the plan's cap of a tenant's requests hold a
      slot stamped within the last `k` slot lifetimes less that delay. No holder is assumed to
      finish. */
  lemma {:induction false} PlatformSlowHolders(start: Sys, items: seq<Item>, n: nat, tenant: string,
                                               delay: nat, now: int, k: nat)
    requires Initial(start) && FreshIds(items) && n <= |items|
    requires Forward(items) && Skewed(items, 0) && PromptScripts(start, items, tenant, delay)
    ensures |HoldersStamped(State(start, items, n), tenant, now - k * (Semaphore.SIXTY_SECONDS - delay), now)|
            <= k * PlanFor(tenant).maxConcurrency
  {
    hide *;
    var sys := State(start, items, n);
    LogIsSampled(start, items, n, tenant, delay);
    EventsNamedInvariant(start, items, n, tenant);
    NamedIsFresh(sys, items, n, tenant);
    HoldersLoggedInvariant(start, items, n, tenant);
    IdsInvariant(start, items, n);
    Semaphore.SlowHolderBound(PlanFor(tenant).maxConcurrency, SlotEvents(sys.log, tenant), delay, now, k);
    HoldersAreHeld(sys, tenant, now - k * (Semaphore.SIXTY_SECONDS - delay), now);
  }

  lemma {:induction false} NamedIsFresh(sys: Sys, items: seq<Item>, n: nat, tenant: string)
    requires n <= |items| && EventsNamed(sys, items, n, tenant)
    ensures Semaphore.FreshIds(SlotEvents(sys.log, tenant))
  {
  }
}
