/** The invoice lifecycle: a draft is written once, generates flip it to issued in separate
    read, write and expire steps, and everything else it says stays fixed unless the key
    expires between a generate's read and its write. */
module Invoices {
  import opened TenantPlan
  import opened KeySchema
  import opened RedisStore
  import opened Program
  import opened Platform
  import opened Passage
  import Ingestion

  // ---- One request ----

  /** The answer of a calculation repeats the draft it stored, and only a draft with its expiry
      set is answered; a request that wrote the hash but did not get to set the expiry has
      failed or crashed. */
  predicate AnswersDraft(r: Req, response: Response) {
    var m := r.marks;
    if response.Drafted? then
      m.draft.Some? && m.ttlSet && r.call.body.CalculateBody?
      && response == Drafted(m.draft.value.invoiceId, r.call.body.customer, m.draft.value.eventCount,
                             m.draft.value.amount)
    else m.draft.Some? ==> response == ServerError
  }

  /** The amount is the rounded product of the count and the price. */
  predicate Priced(d: Draft) {
    d.amount == AmountFor(d.eventCount, d.price)
  }

  predicate DraftsOnce(r: Req) {
    var m := r.marks;
    && (m.ttlSet ==> m.draft.Some?)
    && (m.draft.Some? ==> r.call.body.CalculateBody? && Priced(m.draft.value))
    && match r.phase
       case InView(ExpiringDraft(d), _) => m.draft == Some(d) && !m.ttlSet
       case InView(Drafting(d), _) =>
         r.call.body.CalculateBody? && m.draft == None && Priced(d)
       case Crashed => true
       case _ => if AnswerOf(r.phase).Some? then AnswersDraft(r, AnswerOf(r.phase).value) else m.draft == None
  }

  lemma {:induction false} DraftsOnceStep(s: Store, r: Req, inp: Input)
    requires DraftsOnce(r)
    ensures DraftsOnce(LocalStep(s, r, inp).req)
  {
    hide LocalStep, Receive, Record, Advance, Priced, AnswersDraft;
    LocalStepMoves(s, r, inp);
    var l := LocalStep(s, r, inp);
    DraftsOnceAdvance(r, inp);
    if SeenIn(l, inp) == Failure || ActedIn(l) == Some(SeenIn(l, inp)) {
      DraftsOnceReceive(r, ActedIn(l), SeenIn(l, inp), inp);
    }
  }

  lemma {:induction false} DraftsOnceAdvance(r: Req, inp: Input)
    requires DraftsOnce(r)
    ensures DraftsOnce(r.(phase := Advance(r.call, r.phase, inp)))
  {
    hide IsHeavy, AmountFor;
  }

  lemma {:induction false} DraftsOnceReceive(r: Req, acted: Option<Reply>, seen: Reply, inp: Input)
    requires DraftsOnce(r) && (seen == Failure || acted == Some(seen))
    ensures DraftsOnce(Req(r.call, Receive(r.call, r.phase, seen, inp), Record(r.phase, r.marks, acted, seen, inp.now)))
  {
    hide PriceOf, AmountFor, CustomerIn, AmountIn, PlanFor;
  }

  /** The draft mark is set by the draft's own HSET and never changes; the expiry mark by the
      EXPIRE after it. */
  lemma {:induction false} DraftMarksStep(s: Store, r: Req, inp: Input)
    requires DraftsOnce(r)
    ensures var l := LocalStep(s, r, inp);
            var writes := l.log != [] && r.phase.InView? && r.phase.step.Drafting? && BodyFits(r.call, r.phase.step)
                          && l.log[0].reply.Count?;
            var expires := l.log != [] && r.phase.InView? && r.phase.step.ExpiringDraft?;
            && (writes ==> r.marks.draft == None && !r.marks.ttlSet)
            && l.req.marks.draft == (if writes then Some(r.phase.step.draft) else r.marks.draft)
            && (l.req.marks.ttlSet ==> r.marks.ttlSet || expires)
  {
    hide LocalStep, Exec, DraftFields, IssuedFields, LimitsOf, PlanFor, CostOf, IsHeavy, ShouldGuard, PriceOf,
         AmountFor, CustomerIn, AmountIn, Advance, Receive;
    LocalStepMoves(s, r, inp);
    LocalStepEffect(s, r, inp);
  }

  // ---- Invoice identifiers never collide ----

  predicate Names(r: Req, id: string) {
    (r.marks.draft.Some? && r.marks.draft.value.invoiceId == id)
    || (r.phase.InView? && r.phase.step.Drafting? && r.phase.step.draft.invoiceId == id)
    || (r.phase.InView? && r.phase.step.ExpiringDraft? && r.phase.step.draft.invoiceId == id)
  }

  lemma {:induction false} NamesStep(s: Store, r: Req, inp: Input, id: string)
    requires Names(LocalStep(s, r, inp).req, id)
    ensures Names(r, id) || id == "inv_" + inp.uuid
  {
    hide LocalStep, PriceOf, AmountFor, CustomerIn, AmountIn, PlanFor, IsHeavy, ActedIn, SeenIn;
    LocalStepMoves(s, r, inp);
  }

  ghost predicate AllDraftOnce(sys: Sys) {
    forall r :: r in sys.reqs ==> DraftsOnce(sys.reqs[r])
  }

  ghost predicate DistinctNames(sys: Sys) {
    forall r, q, id :: r in sys.reqs && q in sys.reqs && Names(sys.reqs[r], id) && Names(sys.reqs[q], id) ==> r == q
  }

  ghost predicate NamesFrom(sys: Sys, items: seq<Item>, n: nat)
    requires n <= |items|
  {
    forall r, id :: r in sys.reqs && Names(sys.reqs[r], id) ==>
      exists i :: 0 <= i < n && "inv_" + items[i].input.uuid == id
  }

  lemma {:induction false} SameSuffix(a: string, b: string)
    requires "inv_" + a == "inv_" + b
    ensures a == b
  {
    assert ("inv_" + a)[4..] == a && ("inv_" + b)[4..] == b;
  }

  lemma {:induction false} DraftOnceInvariant(start: Sys, items: seq<Item>, n: nat)
    requires Initial(start) && n <= |items|
    ensures AllDraftOnce(State(start, items, n))
  {
    if n == 0 { return; }
    DraftOnceInvariant(start, items, n - 1);
    var sys, item := State(start, items, n - 1), items[n - 1];
    hide LocalStep, DraftsOnce, State;
    StateNext(start, items, n);
    if item.rid in sys.reqs { DraftsOnceStep(sys.store, sys.reqs[item.rid], item.input); }
  }

  lemma {:induction false} NamesInvariant(start: Sys, items: seq<Item>, n: nat)
    requires Initial(start) && FreshIds(items) && n <= |items|
    ensures var sys := State(start, items, n);
            AllDraftOnce(sys) && DistinctNames(sys) && NamesFrom(sys, items, n)
  {
    if n == 0 { return; }
    DraftOnceInvariant(start, items, n);
    NamesInvariant(start, items, n - 1);
    var sys, item := State(start, items, n - 1), items[n - 1];
    hide LocalStep, DraftsOnce, Names, State;
    StateNext(start, items, n);
    if item.rid in sys.reqs {
      var r := sys.reqs[item.rid];
      var after := Step(sys, item);
      forall q, id | q in after.reqs && Names(after.reqs[q], id)
        ensures (q in sys.reqs && Names(sys.reqs[q], id)) || (q == item.rid && id == "inv_" + item.input.uuid)
      {
        if q == item.rid { NamesStep(sys.store, r, item.input, id); }
      }
      forall q, id | q in sys.reqs && Names(sys.reqs[q], id) ensures id != "inv_" + item.input.uuid {
        var i :| 0 <= i < n - 1 && "inv_" + items[i].input.uuid == id;
        if id == "inv_" + item.input.uuid { SameSuffix(items[i].input.uuid, item.input.uuid); }
      }
    }
  }

  // ---- One invoice key ----

  /** Everything but the status and the time of issue is what was drafted. */
  ghost predicate SameCalculation(fields: map<string, Field>, drafted: map<string, Field>) {
    forall k :: k != "status" && k != "issued_at" ==>
      (k in fields <==> k in drafted) && (k in fields ==> fields[k] == drafted[k])
  }

  predicate IsDraft(fields: map<string, Field>) {
    "status" in fields && fields["status"] == Text("draft") && "issued_at" !in fields
  }

  predicate IsIssued(fields: map<string, Field>) {
    "status" in fields && fields["status"] == Text("issued") && "issued_at" in fields
  }

  /** The request that calculated this invoice. */
  predicate Authors(sys: Sys, r: nat, tenant: string, id: string) {
    r in sys.reqs && sys.reqs[r].call.tenant == tenant && sys.reqs[r].call.body.CalculateBody?
    && sys.reqs[r].marks.draft.Some? && sys.reqs[r].marks.draft.value.invoiceId == id
  }

  /** The hash is what `r` calculated, in status draft or issued, and if it would never expire
      then `r` has not got to its EXPIRE. */
  ghost predicate KeptBy(c: Cell, r: Req)
    requires r.call.body.CalculateBody? && r.marks.draft.Some?
  {
    c.Present? && c.value.Hash? && SameCalculation(c.value.fields, DraftFields(r.call, r.marks.draft.value))
    && (IsDraft(c.value.fields) || IsIssued(c.value.fields))
    && (c.expiry.Persistent? ==> !r.marks.ttlSet)
  }

  function InvoiceCell(sys: Sys, tenant: string, id: string): Cell {
    Get(sys.store, Render(Invoice(tenant, id)))
  }

  ghost predicate Kept(sys: Sys, tenant: string, id: string) {
    InvoiceCell(sys, tenant, id).Present? ==>
      exists r :: Authors(sys, r, tenant, id) && KeptBy(InvoiceCell(sys, tenant, id), sys.reqs[r])
  }

  /** A generate has read what some calculation drafted, and answers with it. */
  ghost predicate Reads(sys: Sys, tenant: string, id: string, fields: map<string, Field>) {
    exists r :: Authors(sys, r, tenant, id)
                && SameCalculation(fields, DraftFields(sys.reqs[r].call, sys.reqs[r].marks.draft.value))
  }

  ghost predicate Returns(sys: Sys, tenant: string, id: string, response: Response) {
    response.Issued? ==>
      response.invoiceId == id
      && exists r :: Authors(sys, r, tenant, id) && response.customer == sys.reqs[r].call.body.customer
                     && response.amount == sys.reqs[r].marks.draft.value.amount
  }

  ghost predicate Faithful(sys: Sys, tenant: string, q: nat)
    requires q in sys.reqs
  {
    var r := sys.reqs[q];
    if r.call.body.GenerateBody? then
      match r.phase
      case InView(Issuing(fields, _), _) => Reads(sys, tenant, r.call.body.invoiceId, fields)
      case InView(ExpiringIssued(fields, _), _) => Reads(sys, tenant, r.call.body.invoiceId, fields)
      case Releasing(_, response) => Returns(sys, tenant, r.call.body.invoiceId, response)
      case Finished(response) => Returns(sys, tenant, r.call.body.invoiceId, response)
      case _ => true
    else AnswerOf(r.phase).Some? ==> !AnswerOf(r.phase).value.Issued?
  }

  ghost predicate Sound(sys: Sys, tenant: string) {
    (forall id :: Kept(sys, tenant, id))
    && forall q :: q in sys.reqs && sys.reqs[q].call.tenant == tenant ==> Faithful(sys, tenant, q)
  }

  /** What a command that reaches the invoice key is, by the view step that sends it. */
  predicate SentBy(call: Request, phase: Phase, cmd: Command, id: string) {
    phase.InView?
    && match phase.step
       case Drafting(d) => call.body.CalculateBody? && d.invoiceId == id && cmd == SetFields(DraftFields(call, d))
       case ExpiringDraft(d) => d.invoiceId == id && cmd == Expire(INVOICE_TTL)
       case Reading => call.body.GenerateBody? && call.body.invoiceId == id && cmd == GetAll
       case Issuing(_, at) => call.body.GenerateBody? && call.body.invoiceId == id && cmd == SetFields(IssuedFields(at))
       case ExpiringIssued(_, _) => call.body.GenerateBody? && call.body.invoiceId == id && cmd == Expire(INVOICE_TTL)
       case _ => false
  }

  /** The commands that can reach an invoice key of a separate tenant. */
  lemma {:induction false} InvoiceIssues(call: Request, phase: Phase, tenant: string, id: string)
    requires NextIssue(call, phase).Some? && (call.tenant == tenant || !Overlap(call.tenant, tenant))
    requires Render(NextIssue(call, phase).value.key) == Render(Invoice(tenant, id))
    ensures call.tenant == tenant && SentBy(call, phase, NextIssue(call, phase).value.cmd, id)
  {
    hide Render, DraftFields, IssuedFields, LimitsOf, CostOf;
    RenderInjective(NextIssue(call, phase).value.key, Invoice(tenant, id));
  }

  /** A generate's write in a scheduled step, and whether its key is still there. */
  predicate IsIssueWrite(e: LogEntry) {
    e.call.body.GenerateBody? && e.op.cmd.SetFields?
  }

  predicate LiveWrite(sys: Sys, item: Item, tenant: string) {
    match Executed(sys, item)
    case None => true
    case Some(e) => e.call.tenant == tenant && IsIssueWrite(e) ==> Seen(Get(sys.store, e.key), e.op.now).Present?
  }

  /** No invoice key of the tenant expires between a generate's read and its write. */
  ghost predicate NoLateWrites(start: Sys, items: seq<Item>, tenant: string) {
    forall k :: 0 <= k < |items| ==> LiveWrite(State(start, items, k), items[k], tenant)
  }

  // ---- The commands on one cell ----

  lemma {:induction false} DraftOnAbsent(call: Request, d: Draft, now: int)
    requires call.body.CalculateBody?
    ensures var out := Exec(Absent, SetFields(DraftFields(call, d)), now);
            out.cell == Present(Hash(DraftFields(call, d)), Persistent) && out.reply.Count?
    ensures SameCalculation(DraftFields(call, d), DraftFields(call, d)) && IsDraft(DraftFields(call, d))
  {
  }

  lemma {:induction false} IssueOnKept(c: Cell, r: Req, at: int, now: int)
    requires r.call.body.CalculateBody? && r.marks.draft.Some? && KeptBy(c, r) && Seen(c, now).Present?
    ensures var out := Exec(c, SetFields(IssuedFields(at)), now);
            KeptBy(out.cell, r) && IsIssued(out.cell.value.fields)
  {
    hide DraftFields;
  }

  lemma {:induction false} ReadOnKept(c: Cell, r: Req, now: int)
    requires r.call.body.CalculateBody? && r.marks.draft.Some? && KeptBy(c, r)
    ensures var out := Exec(c, GetAll, now);
            if Seen(c, now).Present? then out.cell == c && out.reply == All(c.value.fields)
            else out.cell == Absent && out.reply == All(map[])
  {
    hide DraftFields;
  }

  lemma {:induction false} ExpireOnKept(c: Cell, r: Req, q: Req, now: int)
    requires r.call.body.CalculateBody? && r.marks.draft.Some? && KeptBy(c, r)
    requires q.call == r.call && q.marks.draft == r.marks.draft
    ensures var out := Exec(c, Expire(INVOICE_TTL), now);
            out.cell.Present? ==> KeptBy(out.cell, q) && out.cell.value == c.value
  {
    hide DraftFields;
  }

  lemma {:induction false} NothingOnAbsent(now: int)
    ensures Exec(Absent, Expire(INVOICE_TTL), now) == Outcome(Absent, Count(0))
    ensures Exec(Absent, GetAll, now) == Outcome(Absent, All(map[]))
  {
  }

  // ---- One step ----

  lemma {:induction false} InvoiceCellStep(sys: Sys, item: Item, tenant: string, id: string)
    requires Separate(sys, tenant)
    ensures var key := Render(Invoice(tenant, id));
            var before, after := InvoiceCell(sys, tenant, id), InvoiceCell(Step(sys, item), tenant, id);
            match Executed(sys, item)
            case None => after == before
            case Some(e) =>
              if e.key == key then
                item.rid in sys.reqs && sys.reqs[item.rid].call == e.call && e.call.tenant == tenant
                && e.op.now == item.input.now && SentBy(e.call, sys.reqs[item.rid].phase, e.op.cmd, id)
                && after == Exec(before, e.op.cmd, e.op.now).cell && e.reply == Exec(before, e.op.cmd, e.op.now).reply
              else after == before
  {
    hide Step, Executed, Exec, Render, Get, Put, NextIssue, Overlap;
    StepEffect(sys, item);
    if Executed(sys, item).Some? {
      var e := Executed(sys, item).value;
      var r := sys.reqs[item.rid];
      if e.key == Render(Invoice(tenant, id)) { InvoiceIssues(r.call, r.phase, tenant, id); }
      GetPut(sys.store, e.key, Exec(Get(sys.store, e.key), e.op.cmd, e.op.now).cell, Render(Invoice(tenant, id)));
    }
  }

  lemma {:induction false} AuthorsStay(sys: Sys, item: Item, tenant: string, id: string, a: nat)
    requires Authors(sys, a, tenant, id) && AllDraftOnce(sys)
    ensures var after := Step(sys, item);
            && Authors(after, a, tenant, id) && after.reqs[a].call == sys.reqs[a].call
            && after.reqs[a].marks.draft == sys.reqs[a].marks.draft
            && (after.reqs[a].marks.ttlSet && !sys.reqs[a].marks.ttlSet ==>
                  Executed(sys, item).Some? && Executed(sys, item).value.key == Render(Invoice(tenant, id))
                  && Executed(sys, item).value.op.cmd.Expire?)
  {
    hide LocalStep, Render, Get, Put, Exec, DraftsOnce;
    if item.rid in sys.reqs {
      var r := sys.reqs[item.rid];
      LocalStepEffect(sys.store, r, item.input);
      DraftMarksStep(sys.store, r, item.input);
      if a == item.rid { ExpiringOwnDraft(r); }
    }
  }

  lemma {:induction false} ExpiringOwnDraft(r: Req)
    requires DraftsOnce(r)
    ensures r.phase.InView? && r.phase.step.ExpiringDraft? ==>
              r.marks.draft.Some?
              && NextIssue(r.call, r.phase)
                 == Some(Issue(Invoice(r.call.tenant, r.marks.draft.value.invoiceId), Expire(INVOICE_TTL)))
  {
  }

  /** What one step may do to an invoice: nothing, its removal, or draft to issued. */
  ghost predicate Follows(before: Cell, after: Cell) {
    after.Present? && before.Present? ==>
      before.value.Hash? && after.value.Hash? && SameCalculation(after.value.fields, before.value.fields)
      && (IsIssued(before.value.fields) ==> IsIssued(after.value.fields))
  }

  lemma {:induction false} AuthorKeeps(sys: Sys, item: Item, tenant: string, id: string, a: nat)
    requires Separate(sys, tenant) && AllDraftOnce(sys) && DistinctNames(sys) && LiveWrite(sys, item, tenant)
    requires Authors(sys, a, tenant, id) && KeptBy(InvoiceCell(sys, tenant, id), sys.reqs[a])
    ensures var before, after := InvoiceCell(sys, tenant, id), InvoiceCell(Step(sys, item), tenant, id);
            Authors(Step(sys, item), a, tenant, id)
            && (after.Present? ==> KeptBy(after, Step(sys, item).reqs[a])) && Follows(before, after)
  {
    hide Step, Executed, Exec, Render, Get, Seen, DraftFields, IssuedFields, DraftsOnce, Separate;
    InvoiceCellStep(sys, item, tenant, id);
    AuthorsStay(sys, item, tenant, id, a);
    var c, author := InvoiceCell(sys, tenant, id), sys.reqs[a];
    if Executed(sys, item).Some? && Executed(sys, item).value.key == Render(Invoice(tenant, id)) {
      var e, r := Executed(sys, item).value, sys.reqs[item.rid];
      match r.phase.step {
        case Drafting(d) =>
          assert Names(r, id) && Names(author, id);
          assert a == item.rid;
          assert DraftsOnce(r);
          NoDraftYet(r);
        case Issuing(_, at) =>
          IssueOnKept(c, author, at, e.op.now);
        case Reading =>
          ReadOnKept(c, author, e.op.now);
        case ExpiringDraft(_) =>
          ExpireOnKept(c, author, Step(sys, item).reqs[a], e.op.now);
        case ExpiringIssued(_, _) =>
          ExpireOnKept(c, author, Step(sys, item).reqs[a], e.op.now);
        case _ =>
      }
    }
  }

  lemma {:induction false} NoDraftYet(r: Req)
    requires DraftsOnce(r) && r.phase.InView? && r.phase.step.Drafting?
    ensures r.marks.draft == None && !r.marks.ttlSet
  {
  }

  /** An invoice key that is not there appears only by its one draft. */
  lemma {:induction false} DraftAppears(sys: Sys, item: Item, tenant: string, id: string)
    requires Separate(sys, tenant) && AllDraftOnce(sys) && DistinctNames(sys) && LiveWrite(sys, item, tenant)
    requires InvoiceCell(sys, tenant, id) == Absent
    ensures var after := InvoiceCell(Step(sys, item), tenant, id);
            after.Present? ==>
              Authors(Step(sys, item), item.rid, tenant, id) && KeptBy(after, Step(sys, item).reqs[item.rid])
              && forall a :: !Authors(sys, a, tenant, id)
  {
    hide Executed, Exec, Render, Get, DraftFields, IssuedFields, DraftsOnce, Separate, LocalStep;
    InvoiceCellStep(sys, item, tenant, id);
    NothingOnAbsent(item.input.now);
    if Executed(sys, item).Some? && Executed(sys, item).value.key == Render(Invoice(tenant, id)) {
      var e, r := Executed(sys, item).value, sys.reqs[item.rid];
      if r.phase.step.Drafting? {
        DraftOnAbsent(r.call, r.phase.step.draft, e.op.now);
        DraftMarked(sys, item, tenant, id);
        forall a ensures !Authors(sys, a, tenant, id) {
          if Authors(sys, a, tenant, id) {
            assert Names(sys.reqs[a], id) && Names(r, id);
            NoDraftYet(r);
          }
        }
      }
    }
  }

  lemma {:induction false} DraftMarked(sys: Sys, item: Item, tenant: string, id: string)
    requires item.rid in sys.reqs && DraftsOnce(sys.reqs[item.rid]) && Executed(sys, item).Some?
    requires var e := Executed(sys, item).value;
             e.call == sys.reqs[item.rid].call && e.call.tenant == tenant && e.reply.Count?
             && SentBy(e.call, sys.reqs[item.rid].phase, e.op.cmd, id) && sys.reqs[item.rid].phase.step.Drafting?
    ensures var r := Step(sys, item).reqs[item.rid];
            Authors(Step(sys, item), item.rid, tenant, id) && r.call == sys.reqs[item.rid].call
            && r.marks.draft == Some(sys.reqs[item.rid].phase.step.draft) && !r.marks.ttlSet
  {
    hide LocalStep, DraftFields, IssuedFields;
    var r := sys.reqs[item.rid];
    LocalStepEffect(sys.store, r, item.input);
    DraftMarksStep(sys.store, r, item.input);
  }

  lemma {:induction false} KeptStep(sys: Sys, item: Item, tenant: string, id: string)
    requires Separate(sys, tenant) && AllDraftOnce(sys) && DistinctNames(sys) && LiveWrite(sys, item, tenant)
    requires Kept(sys, tenant, id)
    ensures Kept(Step(sys, item), tenant, id)
    ensures Follows(InvoiceCell(sys, tenant, id), InvoiceCell(Step(sys, item), tenant, id))
  {
    hide Step, InvoiceCell, KeptBy, SameCalculation, Separate, AllDraftOnce, DistinctNames, LiveWrite;
    if InvoiceCell(sys, tenant, id).Present? {
      var a :| Authors(sys, a, tenant, id) && KeptBy(InvoiceCell(sys, tenant, id), sys.reqs[a]);
      AuthorKeeps(sys, item, tenant, id, a);
    } else {
      DraftAppears(sys, item, tenant, id);
    }
  }

  // ---- What generates read and answer ----

  lemma {:induction false} ReadsStay(sys: Sys, item: Item, tenant: string, id: string, fields: map<string, Field>)
    requires Reads(sys, tenant, id, fields) && AllDraftOnce(sys)
    ensures Reads(Step(sys, item), tenant, id, fields)
  {
    hide Step, DraftFields, SameCalculation, DraftsOnce;
    var a :| Authors(sys, a, tenant, id)
             && SameCalculation(fields, DraftFields(sys.reqs[a].call, sys.reqs[a].marks.draft.value));
    AuthorsStay(sys, item, tenant, id, a);
    assert Authors(Step(sys, item), a, tenant, id);
  }

  lemma {:induction false} ReturnsStay(sys: Sys, item: Item, tenant: string, id: string, response: Response)
    requires Returns(sys, tenant, id, response) && AllDraftOnce(sys)
    ensures Returns(Step(sys, item), tenant, id, response)
  {
    hide Step, DraftsOnce;
    if response.Issued? {
      var a :| Authors(sys, a, tenant, id) && response.customer == sys.reqs[a].call.body.customer
               && response.amount == sys.reqs[a].marks.draft.value.amount;
      AuthorsStay(sys, item, tenant, id, a);
      assert Authors(Step(sys, item), a, tenant, id);
    }
  }

  /** The answer built from what was read names the calculated customer and amount. */
  lemma {:induction false} AnswerFromRead(fields: map<string, Field>, call: Request, d: Draft)
    requires call.body.CalculateBody? && SameCalculation(fields, DraftFields(call, d))
    ensures CustomerIn(fields) == call.body.customer && AmountIn(fields) == Some(d.amount) && fields != map[]
  {
    assert "customer_id" in fields && "amount" in fields;
  }

  /** How the generate phases follow one another: each of the three steps takes the next one's
      place only after its own command answered. */
  predicate GenerateFollows(r: Req, phase: Phase, seen: Reply) {
    && (phase.InView? && phase.step.Issuing? ==>
          phase == r.phase
          || (r.phase.InView? && r.phase.step.Reading? && r.call.body.GenerateBody?
              && seen == All(phase.step.fields) && phase.step.fields != map[]))
    && (phase.InView? && phase.step.ExpiringIssued? ==>
          phase == r.phase || (r.phase.InView? && r.phase.step.Issuing? && r.phase.step.fields == phase.step.fields))
    && (AnswerOf(phase).Some? && AnswerOf(phase).value.Issued? ==>
          AnswerOf(phase) == AnswerOf(r.phase)
          || (r.phase.InView? && r.phase.step.ExpiringIssued? && r.call.body.GenerateBody?
              && AmountIn(r.phase.step.fields).Some?
              && AnswerOf(phase).value == Issued(r.call.body.invoiceId, CustomerIn(r.phase.step.fields),
                                                 AmountIn(r.phase.step.fields).value, r.phase.step.issuedAt)))
  }

  lemma {:induction false} GenerateReceives(r: Req, seen: Reply, inp: Input)
    ensures GenerateFollows(r, Receive(r.call, r.phase, seen, inp), seen)
    ensures GenerateFollows(r, Advance(r.call, r.phase, inp), Failure)
  {
    hide PriceOf, AmountFor, CustomerIn, AmountIn, PlanFor, IsHeavy;
  }

  lemma {:induction false} GenerateMoves(s: Store, r: Req, inp: Input)
    ensures var l := LocalStep(s, r, inp);
            GenerateFollows(r, l.req.phase, if l.log == [] then Failure else l.log[0].reply)
  {
    hide LocalStep, Receive, Record, Advance, CustomerIn, AmountIn;
    LocalStepMoves(s, r, inp);
    var l := LocalStep(s, r, inp);
    GenerateReceives(r, SeenIn(l, inp), inp);
  }

  /** A read that found something found a kept invoice. */
  lemma {:induction false} ReadFindsKept(sys: Sys, item: Item, tenant: string, q: nat)
    requires Separate(sys, tenant) && AllDraftOnce(sys) && q == item.rid && q in sys.reqs
    requires sys.reqs[q].call.tenant == tenant && sys.reqs[q].call.body.GenerateBody?
    requires Kept(sys, tenant, sys.reqs[q].call.body.invoiceId)
    requires sys.reqs[q].phase.InView? && sys.reqs[q].phase.step.Reading? && Executed(sys, item).Some?
    ensures var reply := Executed(sys, item).value.reply;
            reply.All? && reply.fields != map[] ==> Reads(sys, tenant, sys.reqs[q].call.body.invoiceId, reply.fields)
  {
    hide Step, Executed, Exec, Render, Get, DraftFields, Separate, Overlap;
    var id, r := sys.reqs[q].call.body.invoiceId, sys.reqs[q];
    InvoiceCellStep(sys, item, tenant, id);
    StepEffect(sys, item);
    ReadingIssues(r);
    NothingOnAbsent(item.input.now);
    var c := InvoiceCell(sys, tenant, id);
    if c.Present? {
      var a :| Authors(sys, a, tenant, id) && KeptBy(c, sys.reqs[a]);
      ReadOnKept(c, sys.reqs[a], item.input.now);
    }
  }

  lemma {:induction false} ReadingIssues(r: Req)
    requires r.phase.InView? && r.phase.step.Reading? && r.call.body.GenerateBody?
    ensures NextIssue(r.call, r.phase) == Some(Issue(Invoice(r.call.tenant, r.call.body.invoiceId), GetAll))
  {
  }

  lemma {:induction false} FaithfulStep(sys: Sys, item: Item, tenant: string, q: nat)
    requires Separate(sys, tenant) && AllDraftOnce(sys) && Sound(sys, tenant)
    requires q in sys.reqs && sys.reqs[q].call.tenant == tenant
    ensures q in Step(sys, item).reqs && Faithful(Step(sys, item), tenant, q)
  {
    hide LocalStep, Reads, Returns, Kept, Separate, AllDraftOnce, DraftsOnce, CustomerIn, AmountIn;
    var after, r := Step(sys, item), sys.reqs[q];
    assert Faithful(sys, tenant, q);
    if item.rid in sys.reqs { LocalStepEffect(sys.store, sys.reqs[item.rid], item.input); }
    if q == item.rid { GenerateMoves(sys.store, r, item.input); }
    if r.call.body.GenerateBody? {
      var id, phase := r.call.body.invoiceId, after.reqs[q].phase;
      if phase.InView? && phase.step.Issuing? {
        if phase != r.phase { ReadFindsKept(sys, item, tenant, q); }
        ReadsStay(sys, item, tenant, id, phase.step.fields);
      } else if phase.InView? && phase.step.ExpiringIssued? {
        ReadsStay(sys, item, tenant, id, phase.step.fields);
      } else if AnswerOf(phase).Some? && AnswerOf(phase).value.Issued? {
        if AnswerOf(phase) != AnswerOf(r.phase) {
          AnswerIsFaithful(sys, tenant, id, r.phase.step.fields, AnswerOf(phase).value);
        }
        ReturnsStay(sys, item, tenant, id, AnswerOf(phase).value);
      } else if AnswerOf(phase).Some? {
        NotIssued(after, tenant, id, AnswerOf(phase).value);
      }
    }
  }

  lemma {:induction false} NotIssued(sys: Sys, tenant: string, id: string, response: Response)
    requires !response.Issued?
    ensures Returns(sys, tenant, id, response)
  {
  }

  lemma {:induction false} AnswerIsFaithful(sys: Sys, tenant: string, id: string, fields: map<string, Field>,
                                            response: Response)
    requires Reads(sys, tenant, id, fields) && response.Issued? && response.invoiceId == id
    requires response.customer == CustomerIn(fields) && AmountIn(fields) == Some(response.amount)
    ensures Returns(sys, tenant, id, response)
  {
    hide DraftFields, CustomerIn, AmountIn, SameCalculation;
    var a :| Authors(sys, a, tenant, id)
             && SameCalculation(fields, DraftFields(sys.reqs[a].call, sys.reqs[a].marks.draft.value));
    AnswerFromRead(fields, sys.reqs[a].call, sys.reqs[a].marks.draft.value);
  }

  // ---- Whole runs ----

  lemma {:induction false} SoundStep(sys: Sys, item: Item, tenant: string)
    requires Separate(sys, tenant) && AllDraftOnce(sys) && DistinctNames(sys) && LiveWrite(sys, item, tenant)
    requires Sound(sys, tenant)
    ensures Sound(Step(sys, item), tenant)
  {
    hide LocalStep, Kept, Faithful, Separate, AllDraftOnce, DistinctNames, LiveWrite;
    forall id ensures Kept(Step(sys, item), tenant, id) { KeptStep(sys, item, tenant, id); }
    if item.rid in sys.reqs { LocalStepEffect(sys.store, sys.reqs[item.rid], item.input); }
    forall q | q in Step(sys, item).reqs && Step(sys, item).reqs[q].call.tenant == tenant
      ensures Faithful(Step(sys, item), tenant, q)
    {
      FaithfulStep(sys, item, tenant, q);
    }
  }

  lemma {:induction false} SoundAtStart(start: Sys, items: seq<Item>, tenant: string)
    requires Initial(start)
    ensures Sound(State(start, items, 0), tenant)
  {
    hide Render, Get;
    forall id ensures Kept(start, tenant, id) { NotPricing(Invoice(tenant, id), start); }
  }

  lemma {:induction false} StaysSeparate(start: Sys, items: seq<Item>, n: nat, tenant: string)
    requires Separate(start, tenant) && n <= |items|
    ensures Separate(State(start, items, n), tenant)
  {
    hide State, Overlap;
    CallsAreConstant(start, items, n);
  }

  lemma {:induction false} WriteIsLive(start: Sys, items: seq<Item>, k: nat, tenant: string)
    requires NoLateWrites(start, items, tenant) && k < |items|
    ensures LiveWrite(State(start, items, k), items[k], tenant)
  {
    hide LiveWrite, State;
  }

  lemma {:induction false} SoundInvariant(start: Sys, items: seq<Item>, n: nat, tenant: string)
    requires Initial(start) && FreshIds(items) && Separate(start, tenant)
    requires NoLateWrites(start, items, tenant) && n <= |items|
    ensures Sound(State(start, items, n), tenant)
  {
    hide *;
    if n == 0 {
      SoundAtStart(start, items, tenant);
    } else {
      SoundInvariant(start, items, n - 1, tenant);
      NamesInvariant(start, items, n - 1);
      StaysSeparate(start, items, n - 1, tenant);
      WriteIsLive(start, items, n - 1, tenant);
      StateNext(start, items, n);
      SoundStep(State(start, items, n - 1), items[n - 1], tenant);
    }
  }

  ghost predicate HasDraft(sys: Sys, tenant: string, id: string) {
    exists a :: Authors(sys, a, tenant, id)
  }

  lemma {:induction false} FollowsNext(sys: Sys, item: Item, tenant: string, id: string, first: Cell)
    requires Separate(sys, tenant) && AllDraftOnce(sys) && DistinctNames(sys) && LiveWrite(sys, item, tenant)
    requires Kept(sys, tenant, id) && Follows(first, InvoiceCell(sys, tenant, id))
    requires first.Present? ==> HasDraft(sys, tenant, id)
    ensures Follows(first, InvoiceCell(Step(sys, item), tenant, id))
    ensures HasDraft(sys, tenant, id) ==> HasDraft(Step(sys, item), tenant, id)
    ensures HasDraft(sys, tenant, id) && InvoiceCell(sys, tenant, id) == Absent ==>
              InvoiceCell(Step(sys, item), tenant, id) == Absent
  {
    hide Step, InvoiceCell, KeptBy, Separate, AllDraftOnce, DistinctNames, LiveWrite;
    KeptStep(sys, item, tenant, id);
    if HasDraft(sys, tenant, id) {
      var a :| Authors(sys, a, tenant, id);
      AuthorsStay(sys, item, tenant, id, a);
      if InvoiceCell(sys, tenant, id) == Absent { DraftAppears(sys, item, tenant, id); }
    }
  }

  lemma {:induction false} FollowsRun(start: Sys, items: seq<Item>, m: nat, n: nat, tenant: string, id: string)
    requires Initial(start) && FreshIds(items) && Separate(start, tenant)
    requires NoLateWrites(start, items, tenant) && m <= n <= |items|
    ensures var first, last := State(start, items, m), State(start, items, n);
            && Follows(InvoiceCell(first, tenant, id), InvoiceCell(last, tenant, id))
            && (HasDraft(first, tenant, id) ==> HasDraft(last, tenant, id))
            && (HasDraft(first, tenant, id) && InvoiceCell(first, tenant, id) == Absent ==>
                  InvoiceCell(last, tenant, id) == Absent)
  {
    hide *;
    SoundInvariant(start, items, m, tenant);
    KeptOf(State(start, items, m), tenant, id);
    if m < n {
      FollowsRun(start, items, m, n - 1, tenant, id);
      SoundInvariant(start, items, n - 1, tenant);
      KeptOf(State(start, items, n - 1), tenant, id);
      NamesInvariant(start, items, n - 1);
      StaysSeparate(start, items, n - 1, tenant);
      WriteIsLive(start, items, n - 1, tenant);
      StateNext(start, items, n);
      FollowsNext(State(start, items, n - 1), items[n - 1], tenant, id,
                  InvoiceCell(State(start, items, m), tenant, id));
    }
  }

  lemma {:induction false} KeptOf(sys: Sys, tenant: string, id: string)
    requires Sound(sys, tenant)
    ensures Kept(sys, tenant, id)
    ensures InvoiceCell(sys, tenant, id).Present? ==> HasDraft(sys, tenant, id)
    ensures Follows(InvoiceCell(sys, tenant, id), InvoiceCell(sys, tenant, id))
  {
    hide DraftFields;
    assert Kept(sys, tenant, id);
  }

  /** A calculation whose HSET ran and whose EXPIRE did not: it is between the two, or died or
      failed there. */
  predicate InExpiryGap(r: Req) {
    r.marks.draft.Some? && !r.marks.ttlSet
    && (r.phase.Crashed? || (r.phase.InView? && r.phase.step.ExpiringDraft?) || AnswerOf(r.phase) == Some(ServerError))
  }

  lemma {:induction false} UnexpiringIsInGap(r: Req)
    requires DraftsOnce(r) && r.marks.draft.Some? && !r.marks.ttlSet
    ensures InExpiryGap(r)
  {
  }

  /** The stored invoice is what one calculation drafted: the rounded product of its count and
      price, under its customer; and it lacks an expiry only in that calculation's gap. */
  ghost predicate StoredAsDrafted(sys: Sys, tenant: string, id: string) {
    var c := InvoiceCell(sys, tenant, id);
    c.Present? ==>
      c.value.Hash? && (IsDraft(c.value.fields) || IsIssued(c.value.fields))
      && exists a :: Authors(sys, a, tenant, id) && Priced(sys.reqs[a].marks.draft.value)
           && SameCalculation(c.value.fields, DraftFields(sys.reqs[a].call, sys.reqs[a].marks.draft.value))
           && (c.expiry.Persistent? ==> InExpiryGap(sys.reqs[a]))
  }

  /** Invoice lifecycle in every interleaving with any faults and crashes, as long as no key
      expires between a generate's read and its write: the stored invoice is what was drafted,
      between any two moments only its status changes and only from draft to issued, an
      invoice that is gone stays gone, every generate answers with the calculated customer and
      amount, and the key lacks an expiry only in the gap between HSET and EXPIRE. */
  lemma {:induction false} InvoiceLifecycle(start: Sys, items: seq<Item>, m: nat, n: nat, tenant: string, id: string)
    requires Initial(start) && FreshIds(items) && Separate(start, tenant)
    requires NoLateWrites(start, items, tenant) && m <= n <= |items|
    ensures var first, last := State(start, items, m), State(start, items, n);
            && StoredAsDrafted(last, tenant, id)
            && Follows(InvoiceCell(first, tenant, id), InvoiceCell(last, tenant, id))
            && (HasDraft(first, tenant, id) && InvoiceCell(first, tenant, id) == Absent ==>
                  InvoiceCell(last, tenant, id) == Absent)
            && forall q :: q in last.reqs && last.reqs[q].call.tenant == tenant && last.reqs[q].call.body.GenerateBody?
                           && AnswerOf(last.reqs[q].phase).Some? ==>
                 Returns(last, tenant, last.reqs[q].call.body.invoiceId, AnswerOf(last.reqs[q].phase).value)
  {
    hide State, Initial, FreshIds, Separate, NoLateWrites, Follows, InvoiceCell, Returns, SameCalculation, DraftFields;
    FollowsRun(start, items, m, n, tenant, id);
    SoundInvariant(start, items, n, tenant);
    NamesInvariant(start, items, n);
    var last := State(start, items, n);
    assert Kept(last, tenant, id);
    if InvoiceCell(last, tenant, id).Present? {
      var a :| Authors(last, a, tenant, id) && KeptBy(InvoiceCell(last, tenant, id), last.reqs[a]);
      assert DraftsOnce(last.reqs[a]);
      if !last.reqs[a].marks.ttlSet { UnexpiringIsInGap(last.reqs[a]); }
    }
    forall q | q in last.reqs && last.reqs[q].call.tenant == tenant && last.reqs[q].call.body.GenerateBody?
               && AnswerOf(last.reqs[q].phase).Some?
      ensures Returns(last, tenant, last.reqs[q].call.body.invoiceId, AnswerOf(last.reqs[q].phase).value)
    {
      assert Faithful(last, tenant, q);
    }
  }

  // ---- The condition is exact ----

  lemma {:induction false} LateWriteCell(c: Cell, at: int, now: int)
    requires Seen(c, now) == Absent
    ensures Exec(c, SetFields(IssuedFields(at)), now).cell == Present(Hash(IssuedFields(at)), Persistent)
    ensures forall r: Req :: r.call.body.CalculateBody? && r.marks.draft.Some? ==>
              !KeptBy(Exec(c, SetFields(IssuedFields(at)), now).cell, r)
  {
    forall r: Req | r.call.body.CalculateBody? && r.marks.draft.Some?
      ensures !SameCalculation(IssuedFields(at), DraftFields(r.call, r.marks.draft.value))
    {
      assert "customer_id" in DraftFields(r.call, r.marks.draft.value) && "customer_id" !in IssuedFields(at);
    }
  }

  /** A generate's write keeps the calculated invoice if and only if the key is still there
      when it runs. */
  lemma {:induction false} WriteKeepsIffLive(sys: Sys, item: Item, tenant: string)
    requires Separate(sys, tenant) && AllDraftOnce(sys) && DistinctNames(sys) && Sound(sys, tenant)
    requires Executed(sys, item).Some? && IsIssueWrite(Executed(sys, item).value)
    requires Executed(sys, item).value.call.tenant == tenant
    ensures var e := Executed(sys, item).value;
            Kept(Step(sys, item), tenant, e.call.body.invoiceId) <==> Seen(Get(sys.store, e.key), e.op.now).Present?
  {
    hide Step, Executed, Exec, Render, Get, Put, Overlap, Seen, Sound, KeptBy, DraftFields, IssuedFields,
         AllDraftOnce, DistinctNames;
    var e := Executed(sys, item).value;
    var id := e.call.body.invoiceId;
    StepEffect(sys, item);
    IssueWriteKey(sys.reqs[item.rid]);
    InvoiceCellStep(sys, item, tenant, id);
    KeptOf(sys, tenant, id);
    if LiveWrite(sys, item, tenant) {
      KeptStep(sys, item, tenant, id);
    } else {
      LateWriteCell(Get(sys.store, e.key), sys.reqs[item.rid].phase.step.issuedAt, e.op.now);
    }
  }

  lemma {:induction false} SoundMeansLive(sys: Sys, item: Item, tenant: string)
    requires Separate(sys, tenant) && AllDraftOnce(sys) && DistinctNames(sys)
    requires Sound(sys, tenant) && Sound(Step(sys, item), tenant)
    ensures LiveWrite(sys, item, tenant)
  {
    hide Step, Executed, Sound, Separate, AllDraftOnce, DistinctNames, IsIssueWrite, Kept;
    match Executed(sys, item) {
      case None =>
      case Some(e) =>
        if e.call.tenant == tenant && IsIssueWrite(e) {
          IssueWriteIsGenerate(e);
          WriteKeepsIffLive(sys, item, tenant);
          KeptOf(Step(sys, item), tenant, e.call.body.invoiceId);
        }
    }
  }

  lemma {:induction false} IssueWriteIsGenerate(e: LogEntry)
    ensures IsIssueWrite(e) ==> e.call.body.GenerateBody?
  {
  }

  /** Every state of the run is sound: stored invoices are as calculated, and generates read and
      answer what was calculated. */
  ghost predicate AlwaysSound(start: Sys, items: seq<Item>, tenant: string) {
    forall n :: 0 <= n <= |items| ==> Sound(State(start, items, n), tenant)
  }

  lemma {:induction false} SoundAt(start: Sys, items: seq<Item>, tenant: string, n: nat)
    requires AlwaysSound(start, items, tenant) && n <= |items|
    ensures Sound(State(start, items, n), tenant)
  {
    hide Sound, State;
  }

  /** The condition is exact for whole runs: all states are sound if and only if no generate of
      the tenant writes after its key expired. */
  lemma {:induction false} LifecycleIff(start: Sys, items: seq<Item>, tenant: string)
    requires Initial(start) && FreshIds(items) && Separate(start, tenant)
    ensures AlwaysSound(start, items, tenant) <==> NoLateWrites(start, items, tenant)
  {
    hide State, Initial, FreshIds, Separate, Sound, LiveWrite, AllDraftOnce, DistinctNames, NamesFrom;
    if NoLateWrites(start, items, tenant) {
      forall n | 0 <= n <= |items| ensures Sound(State(start, items, n), tenant) {
        SoundInvariant(start, items, n, tenant);
      }
    }
    if AlwaysSound(start, items, tenant) {
      forall k | 0 <= k < |items| ensures LiveWrite(State(start, items, k), items[k], tenant) {
        NamesInvariant(start, items, k);
        StaysSeparate(start, items, k, tenant);
        StateNext(start, items, k + 1);
        SoundAt(start, items, tenant, k);
        SoundAt(start, items, tenant, k + 1);
        SoundMeansLive(State(start, items, k), items[k], tenant);
      }
    }
  }

  lemma {:induction false} IssueWriteKey(r: Req)
    ensures var i := NextIssue(r.call, r.phase);
            i.Some? && r.call.body.GenerateBody? && i.value.cmd.SetFields? ==>
              i.value.key == Invoice(r.call.tenant, r.call.body.invoiceId)
  {
  }

  function GenerateKey(call: Request): string
    requires call.body.GenerateBody?
  {
    Render(Invoice(call.tenant, call.body.invoiceId))
  }

  predicate Generating(r: Req) {
    r.phase.InView? && r.call.body.GenerateBody?
  }

  lemma {:induction false} ReadTakesFields(s: Store, r: Req, inp: Input, fields: map<string, Field>)
    requires Generating(r) && r.phase.step.Reading? && inp.fault.NoFault?
    requires var c := Seen(Get(s, GenerateKey(r.call)), inp.now);
             c.Present? && c.value == Hash(fields) && fields != map[]
    ensures var l := LocalStep(s, r, inp);
            l.req.phase == InView(Issuing(fields, inp.host), r.phase.hold) && l.req.call == r.call
            && Get(l.store, GenerateKey(r.call)) == Get(s, GenerateKey(r.call))
  {
    hide Render;
  }

  lemma {:induction false} IssueGoesOn(s: Store, r: Req, inp: Input)
    requires Generating(r) && r.phase.step.Issuing? && inp.fault.NoFault?
    requires var c := Seen(Get(s, GenerateKey(r.call)), inp.now); c.Present? ==> c.value.Hash?
    ensures var l := LocalStep(s, r, inp);
            l.req.phase == InView(ExpiringIssued(r.phase.step.fields, r.phase.step.issuedAt), r.phase.hold)
            && l.req.call == r.call
            && Get(l.store, GenerateKey(r.call))
               == Exec(Get(s, GenerateKey(r.call)), SetFields(IssuedFields(r.phase.step.issuedAt)), inp.now).cell
  {
    hide Render, IssuedFields;
  }

  lemma {:induction false} ExpireAnswers(s: Store, r: Req, inp: Input)
    requires Generating(r) && r.phase.step.ExpiringIssued? && inp.fault.NoFault?
    requires AmountIn(r.phase.step.fields).Some?
    ensures AnswerOf(LocalStep(s, r, inp).req.phase)
            == Some(Issued(r.call.body.invoiceId, CustomerIn(r.phase.step.fields), AmountIn(r.phase.step.fields).value,
                           r.phase.step.issuedAt))
  {
    hide Render, CustomerIn, AmountIn;
  }

  lemma {:induction false} ExpireSets(s: Store, r: Req, inp: Input)
    requires Generating(r) && r.phase.step.ExpiringIssued?
    ensures var c := Get(s, GenerateKey(r.call));
            Get(LocalStep(s, r, inp).store, GenerateKey(r.call))
            == if inp.fault.NoFault? || inp.fault.ReplyLost? then Exec(c, Expire(INVOICE_TTL), inp.now).cell else c
  {
    hide Render, Exec, CustomerIn, AmountIn, Record, Receive;
  }

  lemma {:induction false} IssuedFieldsOnly(at: int)
    ensures CustomerIn(IssuedFields(at)) == "" && AmountIn(IssuedFields(at)) == Some(0.0) && IssuedFields(at) != map[]
  {
    assert "status" in IssuedFields(at);
  }

  /** What goes wrong otherwise: a generate that writes after the expiry brings the key back
      with a status and nothing else. If nobody else touches the key before its next step, that
      step's EXPIRE gives the remnant another hour; if it fails before Redis or the worker dies,
      the remnant has no expiry until some later generate's EXPIRE. */
  lemma {:induction false} LateWriteLeaves(s: Store, late: Req, w: Input, x: Input)
    requires Generating(late) && late.phase.step.Issuing? && w.fault.NoFault?
    requires Seen(Get(s, GenerateKey(late.call)), w.now) == Absent
    ensures var at, key := late.phase.step.issuedAt, GenerateKey(late.call);
            var written := LocalStep(s, late, w);
            && Get(written.store, key) == Present(Hash(IssuedFields(at)), Persistent)
            && Get(LocalStep(written.store, written.req, x).store, key)
               == Present(Hash(IssuedFields(at)),
                          if x.fault.NoFault? || x.fault.ReplyLost? then At(x.now + 3600 * MICRO) else Persistent)
  {
    hide LocalStep, GenerateKey, IssuedFields;
    LateWriteCell(Get(s, GenerateKey(late.call)), late.phase.step.issuedAt, w.now);
    IssueGoesOn(s, late, w);
    var written := LocalStep(s, late, w);
    ExpireSets(written.store, written.req, x);
  }

  /** While that remnant lives, every generate that reads it issues to customer "" over 0. */
  lemma {:induction false} RemnantIsIssued(s: Store, next: Req, at: int, i1: Input, i2: Input, i3: Input)
    requires Generating(next) && next.phase.step.Reading?
    requires var c := Seen(Get(s, GenerateKey(next.call)), i1.now); c.Present? && c.value == Hash(IssuedFields(at))
    requires i1.fault.NoFault? && i2.fault.NoFault? && i3.fault.NoFault?
    ensures var a := LocalStep(s, next, i1);
            var b := LocalStep(a.store, a.req, i2);
            AnswerOf(LocalStep(b.store, b.req, i3).req.phase)
            == Some(Issued(next.call.body.invoiceId, "", 0.0, i1.host))
  {
    hide LocalStep, GenerateKey, IssuedFields, Exec, CustomerIn, AmountIn;
    IssuedFieldsOnly(at);
    var a := LocalStep(s, next, i1);
    ReadTakesFields(s, next, i1, IssuedFields(at));
    var b := LocalStep(a.store, a.req, i2);
    IssueGoesOn(a.store, a.req, i2);
    ExpireAnswers(b.store, b.req, i3);
  }

  predicate GenerateCall(call: Request) {
    call.path == GENERATE && call.tenant != "" && call.body.GenerateBody?
  }

  lemma {:induction false} ReachesRead(s: Store, call: Request, inputs: seq<Input>)
    requires GenerateCall(call) && |inputs| >= 4 && FaultFree(inputs, 4)
    requires GatesIdle(s, call.tenant, inputs[0].now, inputs[2].now)
    ensures var run := Solo(s, Arrive(call), inputs, 4);
            && run.req.call == call
            && run.req.phase == InView(Reading, Held(inputs[1].uuid, inputs[1].host, inputs[1].now))
            && Get(run.store, GenerateKey(call)) == Get(s, GenerateKey(call))
            && Get(run.store, Render(Concurrency(call.tenant)))
               == Present(ZSet(map[inputs[1].uuid := inputs[1].host]), At(inputs[2].now + 60_000_000))
            && GatesIdle(run.store, call.tenant, inputs[0].now + 3_600_000_000, inputs[2].now + 60_000_000)
  {
    hide LocalStep, Solo, GatesIdle, Get, Render;
    HeavyEnters(s, call, inputs);
    AlikeCell(s, Solo(s, Arrive(call), inputs, 3).store, Invoice(call.tenant, call.body.invoiceId));
    SoloNext(s, Arrive(call), inputs, 3);
    var entered := Solo(s, Arrive(call), inputs, 3);
    EntersView(entered.store, entered.req, inputs[3]);
  }

  /** Such a run: a generate reads a live invoice through both gates, the invoice expires before
      its write, and the worker dies after it. More than an hour later, when the invoice should
      be long gone, another generate of it passes the gates and issues to customer "" over 0. */
  lemma {:induction false} LateWriteResurrects(s: Store, call: Request, fields: map<string, Field>, deadline: int,
                                               late: seq<Input>, next: seq<Input>)
    requires GenerateCall(call) && |late| == 7 && FaultFree(late, 6) && late[6].fault.Crash?
    requires |next| == 7 && FaultFree(next, 7)
    requires GatesIdle(s, call.tenant, late[0].now, late[2].now)
    requires Get(s, GenerateKey(call)) == Present(Hash(fields), At(deadline)) && fields != map[]
    requires late[4].now < deadline <= late[5].now
    requires next[0].now >= late[0].now + 3_600_000_000 && next[2].now >= late[2].now + 60_000_000
    ensures var dead := Served(s, Arrive(call), Alone(late));
            && dead.req.phase == Crashed
            && Get(dead.store, GenerateKey(call)) == Present(Hash(IssuedFields(late[4].host)), Persistent)
            && AnswerOf(Served(dead.store, Arrive(call), Alone(next)).req.phase)
               == Some(Issued(call.body.invoiceId, "", 0.0, next[4].host))
  {
    var dead := Served(s, Arrive(call), Alone(late));
    AloneIsSolo(s, Arrive(call), late);
    AloneIsSolo(dead.store, Arrive(call), next);
    LateRun(s, call, fields, deadline, late);
    IdleLater(dead.store, call.tenant, late[0].now + 3_600_000_000, late[2].now + 60_000_000,
              next[0].now, next[2].now);
    NextRun(dead.store, call, late[4].host, next);
  }

  lemma {:induction false} IdleLater(s: Store, tenant: string, rateAt: int, slotAt: int, rateLater: int, slotLater: int)
    requires GatesIdle(s, tenant, rateAt, slotAt) && rateAt <= rateLater && slotAt <= slotLater
    ensures GatesIdle(s, tenant, rateLater, slotLater)
  {
    hide Render;
  }

  lemma {:induction false} LateRun(s: Store, call: Request, fields: map<string, Field>, deadline: int, late: seq<Input>)
    requires GenerateCall(call) && |late| == 7 && FaultFree(late, 6) && late[6].fault.Crash?
    requires GatesIdle(s, call.tenant, late[0].now, late[2].now)
    requires Get(s, GenerateKey(call)) == Present(Hash(fields), At(deadline)) && fields != map[]
    requires late[4].now < deadline <= late[5].now
    ensures var dead := Solo(s, Arrive(call), late, 7);
            && dead.req.phase == Crashed
            && Get(dead.store, GenerateKey(call)) == Present(Hash(IssuedFields(late[4].host)), Persistent)
            && GatesIdle(dead.store, call.tenant, late[0].now + 3_600_000_000, late[2].now + 60_000_000)
  {
    var r, rateAt, slotAt := Arrive(call), late[0].now + 3_600_000_000, late[2].now + 60_000_000;
    assert FaultFree(late, 4);
    hide LocalStep, Solo, GenerateKey, IssuedFields, FaultFree, GatesIdle, Get;
    ReachesRead(s, call, late);
    SoloNext(s, r, late, 4);
    SoloNext(s, r, late, 5);
    SoloNext(s, r, late, 6);
    var reading, issuing, written := Solo(s, r, late, 4), Solo(s, r, late, 5), Solo(s, r, late, 6);
    ReadTakesFields(reading.store, reading.req, late[4], fields);
    ViewKeepsGates(reading.store, reading.req, late[4], rateAt, slotAt);
    LateWriteLeaves(issuing.store, issuing.req, late[5], late[6]);
    IssueGoesOn(issuing.store, issuing.req, late[5]);
    ViewKeepsGates(issuing.store, issuing.req, late[5], rateAt, slotAt);
    CrashStops(written.store, written.req, late[6]);
  }

  lemma {:induction false} CrashStops(s: Store, r: Req, inp: Input)
    requires inp.fault.Crash? && !Over(r)
    ensures LocalStep(s, r, inp) == Local(s, r.(phase := Crashed), [])
  {
  }

  lemma {:induction false} ViewKeepsGates(s: Store, r: Req, inp: Input, rateAt: int, slotAt: int)
    requires Generating(r) && GatesIdle(s, r.call.tenant, rateAt, slotAt)
    requires r.phase.step.Reading? || r.phase.step.Issuing?
    ensures GatesIdle(LocalStep(s, r, inp).store, r.call.tenant, rateAt, slotAt)
  {
    hide LocalStep, Render, Get, Seen;
    NotOneKey(Invoice(r.call.tenant, r.call.body.invoiceId), RateLimit(r.call.tenant));
    NotOneKey(Invoice(r.call.tenant, r.call.body.invoiceId), Concurrency(r.call.tenant));
    OthersUntouched(s, r, inp, RateLimit(r.call.tenant));
    OthersUntouched(s, r, inp, Concurrency(r.call.tenant));
  }

  lemma {:induction false} NextRun(s: Store, call: Request, at: int, next: seq<Input>)
    requires GenerateCall(call) && |next| == 7 && FaultFree(next, 7)
             && GatesIdle(s, call.tenant, next[0].now, next[2].now)
    requires Get(s, GenerateKey(call)) == Present(Hash(IssuedFields(at)), Persistent)
    ensures AnswerOf(Solo(s, Arrive(call), next, 7).req.phase)
            == Some(Issued(call.body.invoiceId, "", 0.0, next[4].host))
  {
    var r := Arrive(call);
    assert FaultFree(next, 4);
    hide LocalStep, Solo, GenerateKey, IssuedFields, GatesIdle, Get;
    ReachesRead(s, call, next);
    SoloNext(s, r, next, 4);
    SoloNext(s, r, next, 5);
    SoloNext(s, r, next, 6);
    var reading := Solo(s, r, next, 4);
    RemnantIsIssued(reading.store, reading.req, at, next[4], next[5], next[6]);
  }

  // ---- From the stream to the draft ----

  /** The event count a calculation goes by, once it has read it. */
  function CountOf(r: Req): Option<nat> {
    if r.marks.draft.Some? then Some(r.marks.draft.value.eventCount)
    else match r.phase
         case InView(LookingUp(n), _) => Some(n)
         case InView(Drafting(d), _) => Some(d.eventCount)
         case InView(ExpiringDraft(d), _) => Some(d.eventCount)
         case _ => None
  }

  lemma {:induction false} CountReceive(r: Req, acted: Option<Reply>, seen: Reply, inp: Input)
    requires DraftsOnce(r)
    ensures var next := Req(r.call, Receive(r.call, r.phase, seen, inp),
                            Record(r.phase, r.marks, acted, seen, inp.now));
            CountOf(next).Some? ==>
              CountOf(next) == CountOf(r)
              || (r.phase.InView? && r.phase.step.Counting? && BodyFits(r.call, r.phase.step)
                  && seen == Count(CountOf(next).value))
    ensures CountOf(r.(phase := Advance(r.call, r.phase, inp))).Some? ==>
              CountOf(r.(phase := Advance(r.call, r.phase, inp))) == CountOf(r)
  {
    hide PriceOf, AmountFor, CustomerIn, AmountIn, PlanFor, Priced, IsHeavy;
  }

  lemma {:induction false} CountStep(s: Store, r: Req, inp: Input)
    requires DraftsOnce(r)
    ensures var l := LocalStep(s, r, inp);
            CountOf(l.req).Some? ==>
              CountOf(l.req) == CountOf(r)
              || (l.log != [] && l.log[0].op.cmd.Length? && l.log[0].reply == Count(CountOf(l.req).value))
  {
    hide LocalStep, Exec, DraftsOnce, Receive, Record, Advance;
    LocalStepMoves(s, r, inp);
    LocalStepEffect(s, r, inp);
    var l := LocalStep(s, r, inp);
    CountReceive(r, ActedIn(l), SeenIn(l, inp), inp);
  }

  /** The count is the length the tenant's stream had at some earlier moment of the run. */
  ghost predicate CountWasRead(start: Sys, items: seq<Item>, n: nat, rid: nat)
    requires n <= |items| && rid in State(start, items, n).reqs
  {
    var r := State(start, items, n).reqs[rid];
    CountOf(r).Some? ==>
      exists m: nat :: m <= n && CountOf(r).value == |Ingestion.Recorded(State(start, items, m), r.call.tenant)|
  }

  lemma {:induction false} LengthIsRecorded(sys: Sys, item: Item)
    requires item.rid in sys.reqs && Ingestion.StreamMatches(sys, sys.reqs[item.rid].call.tenant)
    ensures match Executed(sys, item)
            case None => true
            case Some(e) =>
              e.op.cmd.Length? && e.reply.Count? ==>
                e.reply.n == |Ingestion.Recorded(sys, sys.reqs[item.rid].call.tenant)|
  {
    hide Step, Executed, NextIssue, Render, Get, Put;
    StepEffect(sys, item);
    if Executed(sys, item).Some? {
      var r := sys.reqs[item.rid];
      Ingestion.EventsIssues(r.call, r.phase, r.call.tenant);
    }
  }

  lemma {:induction false} CountIsRead(start: Sys, items: seq<Item>, n: nat, rid: nat)
    requires Initial(start) && n <= |items| && rid in start.reqs
    ensures rid in State(start, items, n).reqs && CountWasRead(start, items, n, rid)
  {
    hide *;
    if n == 0 {
      CountAtStart(start, items, rid);
    } else {
      CountIsRead(start, items, n - 1, rid);
      DraftOnceInvariant(start, items, n - 1);
      Ingestion.StreamInvariant(start, items, n - 1, State(start, items, n - 1).reqs[rid].call.tenant);
      CountNext(start, items, n, rid);
    }
  }

  lemma {:induction false} CountAtStart(start: Sys, items: seq<Item>, rid: nat)
    requires Initial(start) && rid in start.reqs
    ensures rid in State(start, items, 0).reqs && CountWasRead(start, items, 0, rid)
  {
  }

  lemma {:induction false} CountNext(start: Sys, items: seq<Item>, n: nat, rid: nat)
    requires 0 < n <= |items| && rid in State(start, items, n - 1).reqs && CountWasRead(start, items, n - 1, rid)
    requires AllDraftOnce(State(start, items, n - 1))
    requires Ingestion.StreamMatches(State(start, items, n - 1), State(start, items, n - 1).reqs[rid].call.tenant)
    ensures rid in State(start, items, n).reqs && CountWasRead(start, items, n, rid)
  {
    hide State, LocalStep, DraftsOnce, CountOf, CountWasRead, Ingestion.Recorded, Ingestion.StreamMatches;
    StateNext(start, items, n);
    var sys, item := State(start, items, n - 1), items[n - 1];
    if item.rid in sys.reqs { LocalStepEffect(sys.store, sys.reqs[item.rid], item.input); }
    if item.rid == rid {
      LengthIsRecorded(sys, item);
      CountStep(sys.store, sys.reqs[rid], item.input);
    }
    CountCarries(start, items, n, rid);
  }

  lemma {:induction false} CountCarries(start: Sys, items: seq<Item>, n: nat, rid: nat)
    requires 0 < n <= |items| && rid in State(start, items, n - 1).reqs && rid in State(start, items, n).reqs
    requires CountWasRead(start, items, n - 1, rid)
    requires var sys, item, r := State(start, items, n - 1), items[n - 1], State(start, items, n).reqs[rid];
             && r.call.tenant == sys.reqs[rid].call.tenant
             && (CountOf(r).Some? ==>
                   CountOf(r) == CountOf(sys.reqs[rid]) || CountOf(r).value == |Ingestion.Recorded(sys, r.call.tenant)|)
    ensures CountWasRead(start, items, n, rid)
  {
    hide State, CountOf, Ingestion.Recorded;
  }

  /** Every stored draft, in every interleaving with any faults, bills the number of events its
      tenant's stream held at one moment of the run, at the rounded product with its price. */
  lemma {:induction false} DraftBillsTheStream(start: Sys, items: seq<Item>, n: nat, rid: nat)
    requires Initial(start) && n <= |items| && rid in start.reqs
    requires rid in State(start, items, n).reqs && State(start, items, n).reqs[rid].marks.draft.Some?
    ensures var r := State(start, items, n).reqs[rid];
            var d := r.marks.draft.value;
            Priced(d)
            && exists m: nat :: m <= n && d.eventCount == |Ingestion.Recorded(State(start, items, m), r.call.tenant)|
  {
    CountIsRead(start, items, n, rid);
    DraftOnceInvariant(start, items, n);
    hide State, Initial, Ingestion.Recorded, Priced;
    assert DraftsOnce(State(start, items, n).reqs[rid]);
  }
}
