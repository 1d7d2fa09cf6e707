/** The calculate use case, written out: the events and the price that are billed, the draft
    that is stored, and the price law of whole runs. Nothing here is stated through the
    functions of the request program that compute the draft. */
module Calculations {
  import opened TenantPlan
  import opened KeySchema
  import opened RedisStore
  import opened Program
  import opened Platform
  import opened Passage
  import Answers
  import Invoices

  // ---- What the two lists say ----

  /** The live stream holds `n` events. */
  predicate HasEvents(c: Cell, n: nat) {
    if c.Absent? then n == 0 else c.value.Stream? && |c.value.entries| == n
  }

  /** What the price list says for a customer: a number, or one cent where it says nothing. */
  predicate Lists(c: Cell, customer: string, price: real) {
    (c.Absent? || c.value.Hash?)
    && if c.Absent? || customer !in c.value.fields then price == 0.01
       else match c.value.fields[customer]
            case Dec(p) => price == p
            case Num(p) => price == p as real
            case Text(t) => t == "" && price == 0.01
  }

  /** Text that is no number. */
  predicate ListsText(c: Cell, customer: string) {
    c.Present? && c.value.Hash? && customer in c.value.fields
    && c.value.fields[customer].Text? && c.value.fields[customer].s != ""
  }

  /** The product of the count and the price to four decimals, ties to even. */
  predicate Nearest(amount: real, n: nat, price: real) {
    ToFourDecimals(amount, n as real * price)
  }

  lemma {:induction false} Counts(s: Store, r: Req, inp: Input, n: nat)
    requires r.phase.InView? && r.phase.step.Counting? && r.call.body.CalculateBody? && inp.fault.NoFault?
    requires HasEvents(Seen(Get(s, Render(Events(r.call.tenant))), inp.now), n)
    ensures var l := LocalStep(s, r, inp);
            l.req.call == r.call && l.req.phase == InView(LookingUp(n), r.phase.hold)
  {
    hide Render;
  }

  lemma {:induction false} Prices(s: Store, r: Req, inp: Input, price: real)
    requires r.phase.InView? && r.phase.step.LookingUp? && r.call.body.CalculateBody? && inp.fault.NoFault?
    requires Lists(Seen(Get(s, Render(Pricing(r.call.tenant))), inp.now), r.call.body.customer, price)
    ensures var l, n := LocalStep(s, r, inp), r.phase.step.eventCount;
            l.req.call == r.call
            && l.req.phase == InView(Drafting(Draft("inv_" + inp.uuid, n, price, AmountFor(n, price), inp.host)),
                                     r.phase.hold)
  {
    hide Render, AmountFor;
  }

  lemma {:induction false} TextFails(s: Store, r: Req, inp: Input)
    requires r.phase.InView? && r.phase.step.LookingUp? && r.call.body.CalculateBody? && inp.fault.NoFault?
    requires ListsText(Seen(Get(s, Render(Pricing(r.call.tenant))), inp.now), r.call.body.customer)
    ensures var l := LocalStep(s, r, inp);
            l.req.call == r.call && l.req.phase == LeaveView(r.phase.hold, ServerError)
  {
    hide Render, AmountFor, LeaveView;
  }

  /** The stored draft, field by field. */
  predicate StoredDraft(fields: map<string, Field>, call: Request, n: nat, price: real, amount: real, createdAt: int)
    requires call.body.CalculateBody?
  {
    fields == map["tenant_id" := Text(call.tenant), "customer_id" := Text(call.body.customer),
                  "period_start" := Text(call.body.periodStart), "period_end" := Text(call.body.periodEnd),
                  "event_count" := Num(n), "amount" := Dec(amount), "status" := Text("draft"),
                  "created_at" := Num(createdAt), "unit_price" := Dec(price)]
  }

  lemma {:induction false} Drafts(s: Store, r: Req, inp: Input, d: Draft)
    requires r.phase.InView? && r.phase.step == Drafting(d) && r.call.body.CalculateBody? && inp.fault.NoFault?
    requires Seen(Get(s, Render(Invoice(r.call.tenant, d.invoiceId))), inp.now) == Absent
    ensures var l := LocalStep(s, r, inp);
            var c := Get(l.store, Render(Invoice(r.call.tenant, d.invoiceId)));
            l.req.call == r.call && l.req.phase == InView(ExpiringDraft(d), r.phase.hold)
            && c.Present? && c.expiry == Persistent && c.value.Hash?
            && StoredDraft(c.value.fields, r.call, d.eventCount, d.price, d.amount, d.createdAt)
  {
    hide Render;
  }

  lemma {:induction false} DraftExpires(s: Store, r: Req, inp: Input, d: Draft)
    requires r.phase.InView? && r.phase.step == ExpiringDraft(d) && r.call.body.CalculateBody? && inp.fault.NoFault?
    requires var c := Get(s, Render(Invoice(r.call.tenant, d.invoiceId))); c.Present? && c.expiry == Persistent
    ensures var l, key := LocalStep(s, r, inp), Render(Invoice(r.call.tenant, d.invoiceId));
            && l.req.call == r.call
            && l.req.phase
               == LeaveView(r.phase.hold, Drafted(d.invoiceId, r.call.body.customer, d.eventCount, d.amount))
            && Get(l.store, key) == Present(Get(s, key).value, At(inp.now + 3_600_000_000))
  {
    hide Render, LeaveView;
  }

  /** Two stores that agree on a tenant's invoices and slots. */
  ghost predicate SameOutcome(s: Store, t: Store, tenant: string) {
    Get(s, Render(Concurrency(tenant))) == Get(t, Render(Concurrency(tenant)))
    && forall id :: Get(s, Render(Invoice(tenant, id))) == Get(t, Render(Invoice(tenant, id)))
  }

  /** Entering, counting and pricing only read. */
  lemma {:induction false} ReadsOnly(s: Store, r: Req, inp: Input)
    requires r.phase.InView? && (r.phase.step.Entering? || r.phase.step.Counting? || r.phase.step.LookingUp?)
    ensures SameOutcome(LocalStep(s, r, inp).store, s, r.call.tenant)
  {
    var t := r.call.tenant;
    ReadIssues(r);
    hide LocalStep, Render, Get, NextIssue;
    NotOneKey(Events(t), Concurrency(t));
    NotOneKey(Pricing(t), Concurrency(t));
    OthersUntouched(s, r, inp, Concurrency(t));
    forall id ensures Get(LocalStep(s, r, inp).store, Render(Invoice(t, id))) == Get(s, Render(Invoice(t, id))) {
      NotOneKey(Events(t), Invoice(t, id));
      NotOneKey(Pricing(t), Invoice(t, id));
      OthersUntouched(s, r, inp, Invoice(t, id));
    }
  }

  lemma {:induction false} ReadIssues(r: Req)
    requires r.phase.InView? && (r.phase.step.Entering? || r.phase.step.Counting? || r.phase.step.LookingUp?)
    ensures var i := NextIssue(r.call, r.phase);
            i.Some? ==> i.value.key == Events(r.call.tenant) || i.value.key == Pricing(r.call.tenant)
  {
  }

  lemma {:induction false} CountKeepsPrices(s: Store, r: Req, inp: Input)
    requires r.phase.InView? && (r.phase.step.Entering? || r.phase.step.Counting?)
    ensures var key := Render(Pricing(r.call.tenant)); Get(LocalStep(s, r, inp).store, key) == Get(s, key)
    ensures var key := Render(Events(r.call.tenant));
            r.phase.step.Entering? ==> Get(LocalStep(s, r, inp).store, key) == Get(s, key)
  {
    hide Render, Get;
    NotOneKey(Events(r.call.tenant), Pricing(r.call.tenant));
    OthersUntouched(s, r, inp, Pricing(r.call.tenant));
    if r.phase.step.Entering? { OthersUntouched(s, r, inp, Events(r.call.tenant)); }
  }

  lemma {:induction false} SameOutcomeTwice(s: Store, t: Store, u: Store, tenant: string)
    requires SameOutcome(s, t, tenant) && SameOutcome(t, u, tenant)
    ensures SameOutcome(s, u, tenant)
  {
    hide Get, Render;
  }

  predicate CalculateCall(call: Request) {
    call.path == CALCULATE && call.tenant != "" && call.body.CalculateBody?
  }

  /** From the view's entry to the moment it knows its price. */
  lemma {:induction false} CalculateCounts(s: Store, r: Req, inputs: seq<Input>, n: nat)
    requires r.phase.InView? && r.phase.step.Entering? && CalculateCall(r.call) && |inputs| >= 2 && FaultFree(inputs, 2)
    requires HasEvents(Seen(Get(s, Render(Events(r.call.tenant))), inputs[1].now), n)
    ensures var run := Solo(s, r, inputs, 2);
            && run.req.call == r.call && run.req.phase == InView(LookingUp(n), r.phase.hold)
            && SameOutcome(run.store, s, r.call.tenant)
            && Get(run.store, Render(Pricing(r.call.tenant))) == Get(s, Render(Pricing(r.call.tenant)))
  {
    hide LocalStep, Solo, Get, Render, SameOutcome, Seen, HasEvents;
    SoloNext(s, r, inputs, 0);
    SoloNext(s, r, inputs, 1);
    var entered := Solo(s, r, inputs, 1);
    Answers.EntryAnswers(s, r, inputs[0], r.phase.hold);
    ReadsOnly(s, r, inputs[0]);
    CountKeepsPrices(s, r, inputs[0]);
    assert entered.req.phase == InView(Counting, r.phase.hold) && entered.req.call == r.call by {
      LocalStepEffect(s, r, inputs[0]);
    }
    Counts(entered.store, entered.req, inputs[1], n);
    ReadsOnly(entered.store, entered.req, inputs[1]);
    CountKeepsPrices(entered.store, entered.req, inputs[1]);
    SameOutcomeTwice(Solo(s, r, inputs, 2).store, entered.store, s, r.call.tenant);
  }

  /** A fault-free calculate, from its arrival at two idle gates: it answers and stores the
      events its tenant's stream holds at the listed price, as a draft with an hour to live,
      and leaves its slot. */
  lemma {:induction false} CalculateAnswers(s: Store, call: Request, inputs: seq<Input>, n: nat, price: real)
    requires CalculateCall(call) && |inputs| == 9 && FaultFree(inputs, 9)
    requires GatesIdle(s, call.tenant, inputs[0].now, inputs[2].now)
    requires HasEvents(Seen(Get(s, Render(Events(call.tenant))), inputs[4].now), n)
    requires Lists(Seen(Get(s, Render(Pricing(call.tenant))), inputs[5].now), call.body.customer, price)
    requires Seen(Get(s, Render(Invoice(call.tenant, "inv_" + inputs[5].uuid))), inputs[6].now) == Absent
    ensures var run, id := Solo(s, Arrive(call), inputs, 9), "inv_" + inputs[5].uuid;
            var response := AnswerOf(run.req.phase);
            var c := Get(run.store, Render(Invoice(call.tenant, id)));
            && run.req.phase.Finished? && response.value.Drafted?
            && response.value == Drafted(id, call.body.customer, n, response.value.amount)
            && Nearest(response.value.amount, n, price)
            && c.Present? && c.value.Hash? && c.expiry == At(inputs[7].now + 3_600_000_000)
            && StoredDraft(c.value.fields, call, n, price, response.value.amount, inputs[5].host)
            && Get(run.store, Render(Concurrency(call.tenant))) == Absent
  {
    var d := Draft("inv_" + inputs[5].uuid, n, price, AmountFor(n, price), inputs[5].host);
    AmountIsNearest(n, price);
    CalculatePrices(s, call, inputs, n, price);
    CalculateStores(s, call, inputs, d);
  }

  lemma {:induction false} CalculateLooksUp(s: Store, call: Request, inputs: seq<Input>, n: nat)
    requires CalculateCall(call) && |inputs| >= 5 && FaultFree(inputs, 5)
    requires GatesIdle(s, call.tenant, inputs[0].now, inputs[2].now)
    requires HasEvents(Seen(Get(s, Render(Events(call.tenant))), inputs[4].now), n)
    ensures var run, hold := Solo(s, Arrive(call), inputs, 5), Held(inputs[1].uuid, inputs[1].host, inputs[1].now);
            && run.req.call == call && run.req.phase == InView(LookingUp(n), hold)
            && Get(run.store, Render(Pricing(call.tenant))) == Get(s, Render(Pricing(call.tenant)))
            && Get(run.store, Render(Concurrency(call.tenant)))
               == Present(ZSet(map[hold.slotId := hold.stamp]), At(inputs[2].now + 60_000_000))
            && forall id :: Get(run.store, Render(Invoice(call.tenant, id))) == Get(s, Render(Invoice(call.tenant, id)))
  {
    hide LocalStep, Solo, Get, Render, Seen, HasEvents, GatesIdle;
    var entered := Solo(s, Arrive(call), inputs, 3);
    HeavyEnters(s, call, inputs);
    AlikeCell(s, entered.store, Events(call.tenant));
    AlikeCell(s, entered.store, Pricing(call.tenant));
    SoloShift(s, Arrive(call), inputs, 3, 2);
    CalculateCounts(entered.store, entered.req, inputs[3..], n);
    forall id ensures Get(Solo(s, Arrive(call), inputs, 5).store, Render(Invoice(call.tenant, id)))
                      == Get(s, Render(Invoice(call.tenant, id)))
    {
      AlikeCell(s, entered.store, Invoice(call.tenant, id));
    }
  }

  lemma {:induction false} CalculatePrices(s: Store, call: Request, inputs: seq<Input>, n: nat, price: real)
    requires CalculateCall(call) && |inputs| >= 6 && FaultFree(inputs, 6)
    requires GatesIdle(s, call.tenant, inputs[0].now, inputs[2].now)
    requires HasEvents(Seen(Get(s, Render(Events(call.tenant))), inputs[4].now), n)
    requires Lists(Seen(Get(s, Render(Pricing(call.tenant))), inputs[5].now), call.body.customer, price)
    ensures var run, hold := Solo(s, Arrive(call), inputs, 6), Held(inputs[1].uuid, inputs[1].host, inputs[1].now);
            var d := Draft("inv_" + inputs[5].uuid, n, price, AmountFor(n, price), inputs[5].host);
            && run.req.call == call && run.req.phase == InView(Drafting(d), hold)
            && Get(run.store, Render(Concurrency(call.tenant)))
               == Present(ZSet(map[hold.slotId := hold.stamp]), At(inputs[2].now + 60_000_000))
            && forall id :: Get(run.store, Render(Invoice(call.tenant, id))) == Get(s, Render(Invoice(call.tenant, id)))
  {
    hide LocalStep, Solo, Get, Render, Seen, HasEvents, GatesIdle, Lists, AmountFor;
    var looking := Solo(s, Arrive(call), inputs, 5);
    CalculateLooksUp(s, call, inputs, n);
    SoloNext(s, Arrive(call), inputs, 5);
    Prices(looking.store, looking.req, inputs[5], price);
    ReadsOnly(looking.store, looking.req, inputs[5]);
  }

  lemma {:induction false} WritesAndExpires(s: Store, r: Req, i1: Input, i2: Input, d: Draft)
    requires r.phase.InView? && r.phase.step == Drafting(d) && r.call.body.CalculateBody?
    requires i1.fault.NoFault? && i2.fault.NoFault?
    requires Seen(Get(s, Render(Invoice(r.call.tenant, d.invoiceId))), i1.now) == Absent
    ensures var written := LocalStep(s, r, i1);
            var l, slots := LocalStep(written.store, written.req, i2), Render(Concurrency(r.call.tenant));
            var c := Get(l.store, Render(Invoice(r.call.tenant, d.invoiceId)));
            && l.req.call == r.call
            && l.req.phase
               == LeaveView(r.phase.hold, Drafted(d.invoiceId, r.call.body.customer, d.eventCount, d.amount))
            && c.Present? && c.value.Hash? && c.expiry == At(i2.now + 3_600_000_000)
            && StoredDraft(c.value.fields, r.call, d.eventCount, d.price, d.amount, d.createdAt)
            && Get(l.store, slots) == Get(s, slots)
  {
    var written := LocalStep(s, r, i1);
    hide LocalStep, Get, Render, Seen, StoredDraft, LeaveView;
    Drafts(s, r, i1, d);
    SlotsUntouched(s, r, i1);
    DraftExpires(written.store, written.req, i2, d);
    SlotsUntouched(written.store, written.req, i2);
  }

  lemma {:induction false} CalculateStores(s: Store, call: Request, inputs: seq<Input>, d: Draft)
    requires CalculateCall(call) && |inputs| == 9 && FaultFree(inputs, 9)
    requires var run, hold := Solo(s, Arrive(call), inputs, 6), Held(inputs[1].uuid, inputs[1].host, inputs[1].now);
             && run.req.call == call && run.req.phase == InView(Drafting(d), hold)
             && Get(run.store, Render(Concurrency(call.tenant)))
                == Present(ZSet(map[hold.slotId := hold.stamp]), At(inputs[2].now + 60_000_000))
             && Seen(Get(run.store, Render(Invoice(call.tenant, d.invoiceId))), inputs[6].now) == Absent
    ensures var run := Solo(s, Arrive(call), inputs, 9);
            var c := Get(run.store, Render(Invoice(call.tenant, d.invoiceId)));
            && run.req.phase == Finished(Drafted(d.invoiceId, call.body.customer, d.eventCount, d.amount))
            && c.Present? && c.value.Hash? && c.expiry == At(inputs[7].now + 3_600_000_000)
            && StoredDraft(c.value.fields, call, d.eventCount, d.price, d.amount, d.createdAt)
            && Get(run.store, Render(Concurrency(call.tenant))) == Absent
  {
    var drafting, leaving := Solo(s, Arrive(call), inputs, 6), Solo(s, Arrive(call), inputs, 8);
    hide LocalStep, Solo, Get, Render, Seen, StoredDraft;
    SoloNext(s, Arrive(call), inputs, 6);
    SoloNext(s, Arrive(call), inputs, 7);
    SoloNext(s, Arrive(call), inputs, 8);
    WritesAndExpires(drafting.store, drafting.req, inputs[6], inputs[7], d);
    Leaves(leaving.store, leaving.req, inputs[8], d.invoiceId);
  }

  /** With other text in the price list the calculate answers 500, stores no draft and leaves
      its slot. */
  lemma {:induction false} CalculateRefusesText(s: Store, call: Request, inputs: seq<Input>, n: nat)
    requires CalculateCall(call) && |inputs| == 7 && FaultFree(inputs, 7)
    requires GatesIdle(s, call.tenant, inputs[0].now, inputs[2].now)
    requires HasEvents(Seen(Get(s, Render(Events(call.tenant))), inputs[4].now), n)
    requires ListsText(Seen(Get(s, Render(Pricing(call.tenant))), inputs[5].now), call.body.customer)
    ensures var run := Solo(s, Arrive(call), inputs, 7);
            && run.req.phase == Finished(ServerError)
            && Get(run.store, Render(Concurrency(call.tenant))) == Absent
            && forall id :: Get(run.store, Render(Invoice(call.tenant, id))) == Get(s, Render(Invoice(call.tenant, id)))
  {
    hide LocalStep, Solo, Get, Render, Seen, HasEvents, GatesIdle, ListsText;
    var looking, leaving := Solo(s, Arrive(call), inputs, 5), Solo(s, Arrive(call), inputs, 6);
    CalculateLooksUp(s, call, inputs, n);
    SoloNext(s, Arrive(call), inputs, 5);
    SoloNext(s, Arrive(call), inputs, 6);
    TextFails(looking.store, looking.req, inputs[5]);
    ReadsOnly(looking.store, looking.req, inputs[5]);
    forall id ensures Get(Solo(s, Arrive(call), inputs, 7).store, Render(Invoice(call.tenant, id)))
                      == Get(s, Render(Invoice(call.tenant, id)))
    {
      Leaves(leaving.store, leaving.req, inputs[6], id);
    }
    Leaves(leaving.store, leaving.req, inputs[6], "");
  }

  // ---- The price law of whole runs ----

  /** The draft a calculation is about to store or has stored. */
  function DraftOf(r: Req): Option<Draft> {
    if r.marks.draft.Some? then r.marks.draft
    else match r.phase
         case InView(Drafting(d), _) => Some(d)
         case InView(ExpiringDraft(d), _) => Some(d)
         case _ => None
  }

  /** In this state and at this time the tenant's price list says so for the body's customer. */
  predicate ListedIn(s: Store, now: int, call: Request, price: real) {
    call.body.CalculateBody? && Lists(Seen(Get(s, Render(Pricing(call.tenant))), now), call.body.customer, price)
  }

  lemma {:induction false} DraftReceive(r: Req, acted: Option<Reply>, seen: Reply, inp: Input)
    requires Invoices.DraftsOnce(r) && (seen == Failure || acted == Some(seen))
    requires !(r.phase.InView? && r.phase.step.LookingUp?)
    ensures var next := Req(r.call, Receive(r.call, r.phase, seen, inp),
                            Record(r.phase, r.marks, acted, seen, inp.now));
            DraftOf(next).Some? ==> DraftOf(next) == DraftOf(r)
    ensures var next := r.(phase := Advance(r.call, r.phase, inp));
            DraftOf(next).Some? ==> DraftOf(next) == DraftOf(r)
  {
    hide AmountFor, CustomerIn, AmountIn, PlanFor, IsHeavy;
  }

  /** A draft is made in one way: its price is read off the live list in that very step. */
  lemma {:induction false} LookupReadsList(s: Store, r: Req, inp: Input)
    requires Invoices.DraftsOnce(r) && r.phase.InView? && r.phase.step.LookingUp?
    ensures var d := DraftOf(LocalStep(s, r, inp).req);
            d.Some? ==> d == DraftOf(r) || ListedIn(s, inp.now, r.call, d.value.price)
  {
    hide Render, AmountFor;
  }

  lemma {:induction false} DraftStep(s: Store, r: Req, inp: Input)
    requires Invoices.DraftsOnce(r)
    ensures var d := DraftOf(LocalStep(s, r, inp).req);
            d.Some? ==> d == DraftOf(r) || ListedIn(s, inp.now, r.call, d.value.price)
  {
    hide LocalStep, Invoices.DraftsOnce, Receive, Record, Advance, ListedIn;
    LocalStepMoves(s, r, inp);
    var l := LocalStep(s, r, inp);
    if r.phase.InView? && r.phase.step.LookingUp? {
      LookupReadsList(s, r, inp);
    } else if SeenIn(l, inp) == Failure || ActedIn(l) == Some(SeenIn(l, inp)) {
      DraftReceive(r, ActedIn(l), SeenIn(l, inp), inp);
    }
  }

  /** The price was on the list at the time and in the state of some earlier step of the run. */
  ghost predicate PriceWasListed(start: Sys, items: seq<Item>, n: nat, call: Request, price: real)
    requires n <= |items|
  {
    exists m: nat :: m < n && ListedIn(State(start, items, m).store, items[m].input.now, call, price)
  }

  ghost predicate PricedFromList(start: Sys, items: seq<Item>, n: nat, rid: nat)
    requires n <= |items| && rid in State(start, items, n).reqs
  {
    var r := State(start, items, n).reqs[rid];
    DraftOf(r).Some? ==> PriceWasListed(start, items, n, r.call, DraftOf(r).value.price)
  }

  lemma {:induction false} ListedBefore(start: Sys, items: seq<Item>, n: nat, call: Request, price: real)
    requires 0 < n <= |items|
    requires PriceWasListed(start, items, n - 1, call, price)
             || ListedIn(State(start, items, n - 1).store, items[n - 1].input.now, call, price)
    ensures PriceWasListed(start, items, n, call, price)
  {
    hide State, ListedIn;
  }

  lemma {:induction false} PriceInvariant(start: Sys, items: seq<Item>, n: nat, rid: nat)
    requires Initial(start) && n <= |items| && rid in start.reqs
    ensures rid in State(start, items, n).reqs && PricedFromList(start, items, n, rid)
  {
    if n > 0 {
      PriceInvariant(start, items, n - 1, rid);
      Invoices.DraftOnceInvariant(start, items, n - 1);
      PriceNext(start, items, n, rid);
    }
  }

  lemma {:induction false} PriceNext(start: Sys, items: seq<Item>, n: nat, rid: nat)
    requires 0 < n <= |items| && rid in State(start, items, n - 1).reqs && PricedFromList(start, items, n - 1, rid)
    requires Invoices.AllDraftOnce(State(start, items, n - 1))
    ensures rid in State(start, items, n).reqs && PricedFromList(start, items, n, rid)
  {
    hide State, LocalStep, Invoices.DraftsOnce, DraftOf, PriceWasListed, ListedIn;
    StateNext(start, items, n);
    var sys, item := State(start, items, n - 1), items[n - 1];
    if item.rid in sys.reqs { LocalStepEffect(sys.store, sys.reqs[item.rid], item.input); }
    if item.rid == rid { DraftStep(sys.store, sys.reqs[rid], item.input); }
    var r := State(start, items, n).reqs[rid];
    if DraftOf(r).Some? { ListedBefore(start, items, n, r.call, DraftOf(r).value.price); }
  }

  /** Every stored draft, in every interleaving with any faults and any price lists, bills its
      customer at the price the list held for that customer at some step of the run, or at one
      cent where the list said nothing then; and the amount is the count at that price. */
  lemma {:induction false} StoredPriceWasListed(start: Sys, items: seq<Item>, n: nat, rid: nat)
    requires Initial(start) && n <= |items| && rid in start.reqs
    requires rid in State(start, items, n).reqs && State(start, items, n).reqs[rid].marks.draft.Some?
    ensures var r := State(start, items, n).reqs[rid];
            var d := r.marks.draft.value;
            PriceWasListed(start, items, n, r.call, d.price) && Nearest(d.amount, d.eventCount, d.price)
  {
    PriceInvariant(start, items, n, rid);
    Invoices.DraftOnceInvariant(start, items, n);
    hide *;
    StoredIsListed(start, items, n, rid);
  }

  lemma {:induction false} StoredIsListed(start: Sys, items: seq<Item>, n: nat, rid: nat)
    requires n <= |items| && rid in State(start, items, n).reqs && PricedFromList(start, items, n, rid)
    requires Invoices.AllDraftOnce(State(start, items, n)) && State(start, items, n).reqs[rid].marks.draft.Some?
    ensures var r := State(start, items, n).reqs[rid];
            var d := r.marks.draft.value;
            PriceWasListed(start, items, n, r.call, d.price) && Nearest(d.amount, d.eventCount, d.price)
  {
    hide State, PriceWasListed, Nearest;
    PricedIsNearest(State(start, items, n).reqs[rid]);
  }

  lemma {:induction false} PricedIsNearest(r: Req)
    requires Invoices.DraftsOnce(r) && r.marks.draft.Some?
    ensures var d := r.marks.draft.value; Nearest(d.amount, d.eventCount, d.price)
  {
    var d := r.marks.draft.value;
    hide AmountFor, Nearest;
    assert Invoices.Priced(d);
    NearestOf(d.amount, d.eventCount, d.price);
  }

  lemma {:induction false} NearestOf(amount: real, n: nat, price: real)
    requires amount == AmountFor(n, price)
    ensures Nearest(amount, n, price)
  {
    AmountIsNearest(n, price);
    hide AmountFor;
  }
}
