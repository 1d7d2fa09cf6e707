/** The generate use case, written out: an invoice that is gone is not found and nothing is
    written; one that is there is issued as it was read. */
module Issuance {
  import opened KeySchema
  import opened RedisStore
  import opened Program
  import opened Passage
  import Platform
  import Invoices

  // ---- The read decides ----

  /** A live invoice: a hash that says something. */
  predicate Live(c: Cell) {
    c.Present? && c.value.Hash? && c.value.fields != map[]
  }

  /** A read without a fault finds no invoice if and only if none is live, and then changes
      nothing; what it finds is what the generate goes on with; a key of another type is an
      error. */
  lemma {:induction false} ReadDecides(s: Store, r: Req, inp: Input)
    requires Invoices.Generating(r) && r.phase.step.Reading? && inp.fault.NoFault?
    ensures var l, key := LocalStep(s, r, inp), Render(Invoice(r.call.tenant, r.call.body.invoiceId));
            var hold, c := r.phase.hold, Seen(Get(s, key), inp.now);
            && l.req.call == r.call && Get(l.store, key) == c
            && (AnswerOf(l.req.phase) == Some(InvoiceNotFound)
                <==> c == Absent || (c.value.Hash? && c.value.fields == map[]))
            && (Live(c) ==> l.req.phase == InView(Issuing(c.value.fields, inp.host), hold))
            && (c.Present? && !c.value.Hash? ==> AnswerOf(l.req.phase) == Some(ServerError))
            && (!Live(c) ==> l.req.phase == if hold.Held? then Releasing(hold, AnswerOf(l.req.phase).value)
                                            else Finished(AnswerOf(l.req.phase).value))
  {
    hide Render;
  }

  // ---- From arrival ----

  /** A fault-free generate of an invoice that is gone, from its arrival at two idle gates: it
      answers that there is none, leaves the key absent and its slot. */
  lemma {:induction false} GoneIsNotFound(s: Store, call: Request, inputs: seq<Input>)
    requires Invoices.GenerateCall(call) && |inputs| == 6 && FaultFree(inputs, 6)
    requires GatesIdle(s, call.tenant, inputs[0].now, inputs[2].now)
    requires Seen(Get(s, Render(Invoice(call.tenant, call.body.invoiceId))), inputs[4].now) == Absent
    ensures var run := Solo(s, Arrive(call), inputs, 6);
            && run.req.phase == Finished(InvoiceNotFound)
            && Get(run.store, Render(Invoice(call.tenant, call.body.invoiceId))) == Absent
            && Get(run.store, Render(Concurrency(call.tenant))) == Absent
  {
    assert FaultFree(inputs, 4);
    hide LocalStep, Solo, Get, Render, Seen, GatesIdle, Live;
    var reading, leaving := Solo(s, Arrive(call), inputs, 4), Solo(s, Arrive(call), inputs, 5);
    Invoices.ReachesRead(s, call, inputs);
    SoloNext(s, Arrive(call), inputs, 4);
    SoloNext(s, Arrive(call), inputs, 5);
    ReadDecides(reading.store, reading.req, inputs[4]);
    AbsentIsNotLive();
    SlotsUntouched(reading.store, reading.req, inputs[4]);
    Leaves(leaving.store, leaving.req, inputs[5], call.body.invoiceId);
  }

  lemma {:induction false} AbsentIsNotLive()
    ensures !Live(Absent)
  {
  }

  /** Whom and how much the stored fields bill: the empty name and nothing where they are
      missing. */
  predicate Bills(fields: map<string, Field>, customer: string, amount: real) {
    && customer == (if "customer_id" in fields && fields["customer_id"].Text? then fields["customer_id"].s else "")
    && if "amount" !in fields then amount == 0.0
       else match fields["amount"]
            case Dec(x) => amount == x
            case Num(x) => amount == x as real
            case Text(_) => false
  }

  predicate AliveAt(expiry: Expiry, now: int) {
    expiry.At? ==> now < expiry.deadline
  }

  /** The fields once issued. */
  predicate IssuedAt(after: map<string, Field>, before: map<string, Field>, at: int) {
    after == before["status" := Text("issued")]["issued_at" := Num(at)]
  }

  lemma {:induction false} BilledAnswer(s: Store, r: Req, inp: Input, customer: string, amount: real)
    requires Invoices.Generating(r) && r.phase.step.ExpiringIssued? && inp.fault.NoFault?
    requires Bills(r.phase.step.fields, customer, amount)
    ensures var l := LocalStep(s, r, inp);
            && l.req.call == r.call
            && l.req.phase == LeaveView(r.phase.hold,
                                        Issued(r.call.body.invoiceId, customer, amount, r.phase.step.issuedAt))
  {
    hide Render, LeaveView;
  }

  /** An amount that is no number is an error, though the invoice is issued by then. */
  lemma {:induction false} TextAmountFails(s: Store, r: Req, inp: Input)
    requires Invoices.Generating(r) && r.phase.step.ExpiringIssued? && inp.fault.NoFault?
    requires "amount" in r.phase.step.fields && r.phase.step.fields["amount"].Text?
    ensures AnswerOf(LocalStep(s, r, inp).req.phase) == Some(ServerError)
  {
    hide Render, CustomerIn;
  }

  lemma {:induction false} IssueWrites(c: Cell, fields: map<string, Field>, expiry: Expiry, at: int, now: int)
    requires c == Present(Hash(fields), expiry) && AliveAt(expiry, now)
    ensures var after := Exec(c, SetFields(IssuedFields(at)), now).cell;
            after.Present? && after.value.Hash? && IssuedAt(after.value.fields, fields, at) && after.expiry == expiry
  {
    IssuedOver(fields, at);
    hide IssuedFields, IssuedAt;
  }

  lemma {:induction false} IssuedOver(fields: map<string, Field>, at: int)
    ensures IssuedAt(fields + IssuedFields(at), fields, at)
  {
    assert "status" != "issued_at";
  }

  lemma {:induction false} LiveSeen(c: Cell, now: int)
    requires c.Present? && AliveAt(c.expiry, now)
    ensures Seen(c, now) == c
  {
  }

  lemma {:induction false} ExpiryRestarts(c: Cell, now: int)
    requires c.Present? && AliveAt(c.expiry, now)
    ensures Exec(c, Expire(INVOICE_TTL), now).cell == Present(c.value, At(now + 3_600_000_000))
  {
  }

  lemma {:induction false} Issues(s: Store, r: Req, i1: Input, i2: Input, i3: Input, fields: map<string, Field>,
                                  expiry: Expiry, customer: string, amount: real)
    requires Invoices.Generating(r) && r.phase.step.Reading?
    requires i1.fault.NoFault? && i2.fault.NoFault? && i3.fault.NoFault?
    requires Get(s, Invoices.GenerateKey(r.call)) == Present(Hash(fields), expiry) && fields != map[]
    requires AliveAt(expiry, i1.now) && AliveAt(expiry, i2.now) && AliveAt(expiry, i3.now)
             && Bills(fields, customer, amount)
    ensures var a := LocalStep(s, r, i1);
            var b := LocalStep(a.store, a.req, i2);
            var l := LocalStep(b.store, b.req, i3);
            var c := Get(l.store, Invoices.GenerateKey(r.call));
            && l.req.call == r.call
            && l.req.phase == LeaveView(r.phase.hold, Issued(r.call.body.invoiceId, customer, amount, i1.host))
            && c.Present? && c.value.Hash? && IssuedAt(c.value.fields, fields, i1.host)
            && c.expiry == At(i3.now + 3_600_000_000)
            && Get(l.store, Render(Concurrency(r.call.tenant))) == Get(s, Render(Concurrency(r.call.tenant)))
  {
    hide LocalStep, Get, Render, Invoices.GenerateKey, IssuedFields, Exec, IssuedAt, Bills, LeaveView, AliveAt;
    var a := LocalStep(s, r, i1);
    LiveSeen(Get(s, Invoices.GenerateKey(r.call)), i1.now);
    Invoices.ReadTakesFields(s, r, i1, fields);
    SlotsUntouched(s, r, i1);
    var b := LocalStep(a.store, a.req, i2);
    LiveSeen(Get(s, Invoices.GenerateKey(r.call)), i2.now);
    Invoices.IssueGoesOn(a.store, a.req, i2);
    IssueWrites(Get(a.store, Invoices.GenerateKey(r.call)), fields, expiry, i1.host, i2.now);
    SlotsUntouched(a.store, a.req, i2);
    BilledAnswer(b.store, b.req, i3, customer, amount);
    Invoices.ExpireSets(b.store, b.req, i3);
    ExpiryRestarts(Get(b.store, Invoices.GenerateKey(r.call)), i3.now);
    SlotsUntouched(b.store, b.req, i3);
  }

  lemma {:induction false} IssuesFromArrival(s: Store, call: Request, inputs: seq<Input>, fields: map<string, Field>,
                                             expiry: Expiry, customer: string, amount: real)
    requires Invoices.GenerateCall(call) && |inputs| >= 7 && FaultFree(inputs, 7)
    requires GatesIdle(s, call.tenant, inputs[0].now, inputs[2].now)
    requires Get(s, Invoices.GenerateKey(call)) == Present(Hash(fields), expiry) && fields != map[]
    requires AliveAt(expiry, inputs[4].now) && AliveAt(expiry, inputs[5].now) && AliveAt(expiry, inputs[6].now)
    requires Bills(fields, customer, amount)
    ensures var run, hold := Solo(s, Arrive(call), inputs, 7), Held(inputs[1].uuid, inputs[1].host, inputs[1].now);
            var c := Get(run.store, Invoices.GenerateKey(call));
            && run.req.call == call
            && run.req.phase == Releasing(hold, Issued(call.body.invoiceId, customer, amount, inputs[4].host))
            && c.Present? && c.value.Hash? && IssuedAt(c.value.fields, fields, inputs[4].host)
            && c.expiry == At(inputs[6].now + 3_600_000_000)
            && Get(run.store, Render(Concurrency(call.tenant)))
               == Present(ZSet(map[hold.slotId := hold.stamp]), At(inputs[2].now + 60_000_000))
  {
    assert FaultFree(inputs, 4);
    hide LocalStep, Solo, Get, Render, Seen, GatesIdle, IssuedAt, Bills, AliveAt, Invoices.GenerateKey;
    var r := Arrive(call);
    Invoices.ReachesRead(s, call, inputs);
    SoloNext(s, r, inputs, 4);
    SoloNext(s, r, inputs, 5);
    SoloNext(s, r, inputs, 6);
    var reading := Solo(s, r, inputs, 4);
    Issues(reading.store, reading.req, inputs[4], inputs[5], inputs[6], fields, expiry, customer, amount);
  }

  /** A fault-free generate of a live invoice, from its arrival at two idle gates: it answers
      whom and how much the invoice bills, marks it issued at the time it answers with, keeps
      all other fields, gives it another hour and leaves its slot. */
  lemma {:induction false} LiveIsIssued(s: Store, call: Request, inputs: seq<Input>, fields: map<string, Field>,
                                        expiry: Expiry, customer: string, amount: real)
    requires Invoices.GenerateCall(call) && |inputs| == 8 && FaultFree(inputs, 8)
    requires GatesIdle(s, call.tenant, inputs[0].now, inputs[2].now)
    requires Get(s, Render(Invoice(call.tenant, call.body.invoiceId))) == Present(Hash(fields), expiry)
             && fields != map[]
    requires forall i :: 4 <= i < 7 ==> AliveAt(expiry, inputs[i].now)
    requires Bills(fields, customer, amount)
    ensures var run := Solo(s, Arrive(call), inputs, 8);
            var c := Get(run.store, Render(Invoice(call.tenant, call.body.invoiceId)));
            && run.req.phase == Finished(Issued(call.body.invoiceId, customer, amount, inputs[4].host))
            && c.Present? && c.value.Hash? && IssuedAt(c.value.fields, fields, inputs[4].host)
            && c.expiry == At(inputs[6].now + 3_600_000_000)
            && Get(run.store, Render(Concurrency(call.tenant))) == Absent
  {
    assert FaultFree(inputs, 7) && inputs[7].fault.NoFault?;
    hide LocalStep, Solo, Get, Render, GatesIdle, IssuedAt, Bills, AliveAt, FaultFree;
    IssuesFromArrival(s, call, inputs, fields, expiry, customer, amount);
    SoloNext(s, Arrive(call), inputs, 7);
    var leaving := Solo(s, Arrive(call), inputs, 7);
    Leaves(leaving.store, leaving.req, inputs[7], call.body.invoiceId);
  }

  // ---- What a request that found nothing has sent ----

  predicate GateOrRead(cmd: Command) {
    cmd.Consume? || cmd.Acquire? || cmd.Release? || cmd.GetAll?
  }

  /** Gate commands and reads only. */
  predicate SentNothingElse(log: seq<LogEntry>) {
    forall i :: 0 <= i < |log| ==> GateOrRead(log[i].op.cmd)
  }

  /** Once a request has sent anything else, it is in the middle of its use case or answers
      something else. */
  predicate NotGone(phase: Phase) {
    match phase
    case InView(step, _) =>
      step.Appending? || step.LookingUp? || step.Drafting? || step.ExpiringDraft? || step.ExpiringIssued?
    case Releasing(_, response) => response != InvoiceNotFound
    case Finished(response) => response != InvoiceNotFound
    case Crashed => true
    case _ => false
  }

  lemma {:induction false} NotGoneReceives(call: Request, phase: Phase, seen: Reply, inp: Input)
    requires NotGone(phase) || (NextIssue(call, phase).Some? && !GateOrRead(NextIssue(call, phase).value.cmd))
    ensures NotGone(Receive(call, phase, seen, inp))
  {
    hide PriceOf, AmountFor, CustomerIn, AmountIn;
  }

  lemma {:induction false} NotGoneAdvances(call: Request, phase: Phase, inp: Input)
    requires NotGone(phase)
    ensures NotGone(Advance(call, phase, inp))
  {
  }

  lemma {:induction false} SentSnoc(log: seq<LogEntry>, e: LogEntry)
    ensures SentNothingElse(log + [e]) <==> SentNothingElse(log) && GateOrRead(e.op.cmd)
  {
    var more := log + [e];
    assert more[|log|] == e;
    assert forall i :: 0 <= i < |log| ==> more[i] == log[i];
  }

  lemma {:induction false} NotGoneStep(s: Store, r: Req, inp: Input, log: seq<LogEntry>)
    requires SentNothingElse(log) || NotGone(r.phase)
    ensures var l := LocalStep(s, r, inp); SentNothingElse(log + l.log) || NotGone(l.req.phase)
  {
    hide LocalStep, Exec, Render, Get, Put, Receive, Record, Advance, NextIssue, NotGone, SentNothingElse, GateOrRead;
    LocalStepMoves(s, r, inp);
    Platform.LocalStepEffect(s, r, inp);
    var l := LocalStep(s, r, inp);
    if NotGone(r.phase) {
      NotGoneAdvances(r.call, r.phase, inp);
      NotGoneReceives(r.call, r.phase, SeenIn(l, inp), inp);
      CrashedIsNotGone();
    } else if l.log == [] {
      assert log + l.log == log;
    } else {
      assert l.log == [l.log[0]];
      SentSnoc(log, l.log[0]);
      if !GateOrRead(l.log[0].op.cmd) { NotGoneReceives(r.call, r.phase, SeenIn(l, inp), inp); }
    }
  }

  lemma {:induction false} CrashedIsNotGone()
    ensures NotGone(Crashed)
  {
  }

  /** However a request is served, with any faults and any commands of others in between: if it
      answers that its invoice is gone, it has sent gate commands and the read, and no other. */
  lemma {:induction false} GoneSentNothing(s: Store, r: Req, turns: seq<Turn>)
    ensures var run := Served(s, r, turns);
            AnswerOf(run.req.phase) == Some(InvoiceNotFound) ==> SentNothingElse(run.log)
  {
    GoneInvariant(s, r, turns);
  }

  lemma {:induction false} GoneInvariant(s: Store, r: Req, turns: seq<Turn>)
    ensures var run := Served(s, r, turns); SentNothingElse(run.log) || NotGone(run.req.phase)
  {
    hide LocalStep, AfterAll, NotGone;
    if turns != [] {
      var before, turn := Served(s, r, turns[..|turns| - 1]), turns[|turns| - 1];
      GoneInvariant(s, r, turns[..|turns| - 1]);
      NotGoneStep(AfterAll(before.store, turn.others), before.req, turn.input, before.log);
    }
  }

  // ---- What an answered request still sends ----

  /** An answer is final: from then on a request keeps it or dies, and sends nothing but the
      release of its slot, once at most. */
  predicate OnlyReleases(start: Req, r: Req, log: seq<LogEntry>) {
    && (r.phase.Crashed? || AnswerOf(r.phase) == AnswerOf(start.phase))
    && |log| <= 1 && (log != [] ==> log[0].op.cmd.Release? && Over(r))
  }

  lemma {:induction false} OnlyReleasesStep(start: Req, s: Store, r: Req, inp: Input, log: seq<LogEntry>)
    requires OnlyReleases(start, r, log) && AnswerOf(start.phase).Some?
    ensures var l := LocalStep(s, r, inp); OnlyReleases(start, l.req, log + l.log)
  {
    hide Exec, Render, Get, Put, Record;
  }

  lemma {:induction false} AnswerIsFinal(s: Store, r: Req, turns: seq<Turn>)
    requires AnswerOf(r.phase).Some?
    ensures var run := Served(s, r, turns); OnlyReleases(r, run.req, run.log)
  {
    hide LocalStep, AfterAll;
    if turns != [] {
      var before, turn := Served(s, r, turns[..|turns| - 1]), turns[|turns| - 1];
      AnswerIsFinal(s, r, turns[..|turns| - 1]);
      hide OnlyReleases;
      OnlyReleasesStep(r, AfterAll(before.store, turn.others), before.req, turn.input, before.log);
    }
  }
}
