/** What one request does: the two middlewares, the three views and the use cases behind
    them, as a program that issues one Redis command at a time. */
module Program {
  import opened TenantPlan
  import opened KeySchema
  import opened RedisStore
  import Bucket = TokenBucket

  const IDEMPOTENCY_TTL: int := 604_800 * MICRO
  const INVOICE_TTL: int := 3600 * MICRO
  const DEFAULT_PRICE: real := 0.01

  datatype Body =
    | IngestBody(idempotencyKey: string, payload: map<string, Field>)
    | CalculateBody(customer: string, periodStart: string, periodEnd: string)
    | GenerateBody(invoiceId: string)
    | Malformed

  /** `tenant` is the stripped header value, empty when the header is missing. */
  datatype Request = Request(tenant: string, path: string, body: Body)

  datatype Response =
    | Accepted(duplicate: bool)
    | Drafted(invoiceId: string, customer: string, eventCount: nat, amount: real)
    | Issued(invoiceId: string, customer: string, amount: real, issuedAt: int)
    | BadRequest
    | NoSuchRoute
    | InvoiceNotFound
    | RateLimited(retryAfter: int)
    | ConcurrencyLimited(inFlight: nat, capacity: nat)
    | ServerError

  /** How a request passed the slot gate. `sampledAt` is the Redis time of the clock read. */
  datatype Hold = Unguarded | FailedOpen | Held(slotId: string, stamp: int, sampledAt: int)

  datatype Draft = Draft(invoiceId: string, eventCount: nat, price: real, amount: real, createdAt: int)

  datatype ViewStep =
    | Entering
    | Claiming
    | Appending
    | Counting
    | LookingUp(eventCount: nat)
    | Drafting(draft: Draft)
    | ExpiringDraft(draft: Draft)
    | Reading
    | Issuing(fields: map<string, Field>, issuedAt: int)
    | ExpiringIssued(fields: map<string, Field>, issuedAt: int)

  datatype Phase =
    | AtRateGate
    | AtSlotGate
    | Acquiring(slotId: string, stamp: int, sampledAt: int)
    | InView(step: ViewStep, hold: Hold)
    | Releasing(hold: Hold, response: Response)
    | Finished(response: Response)
    | Crashed

  /** What Redis did on behalf of a request, whether or not the request learnt of it. */
  datatype Marks = Marks(
    slot: Option<string>,         // inserted and never removed by ZREM
    granted: bool,                // the client saw its admission
    acquireLost: bool,            // admitted, but the reply was lost
    releaseTries: nat,
    releaseFailed: bool,
    claimedAt: Option<int>,
    position: Option<nat>,        // stream entry written
    draft: Option<Draft>,         // invoice hash written
    ttlSet: bool)

  const NO_MARKS := Marks(None, false, false, 0, false, None, None, None, false)

  datatype Req = Req(call: Request, phase: Phase, marks: Marks)

  function Arrive(call: Request): Req {
    Req(call, AtRateGate, NO_MARKS)
  }

  /** Faults of one command: an error before Redis acts, a reply lost after it acted, and
      the death of the worker. */
  datatype Fault = NoFault | ErrorBefore | ReplyLost | Crash

  /** What the environment supplies to one step: Redis time, the fault if any, the worker's
      own clock and an unused identifier. */
  datatype Input = Input(now: int, fault: Fault, host: int, uuid: string)

  datatype Issue = Issue(key: Key, cmd: Command)

  // ---- Pieces of the use cases ----

  function LimitsOf(tenant: string): Bucket.Limits {
    Bucket.Limits(PlanFor(tenant).burst, PlanFor(tenant).requestsPerSecond)
  }

  function Parse(f: Field): Option<real> {
    match f
    case Num(n) => Some(n as real)
    case Dec(r) => Some(r)
    case Text(_) => None
  }

  /** A missing or empty price falls back to the default; other text is not a number. */
  function PriceOf(raw: Option<Field>): Option<real> {
    if raw.None? || raw.value == Text("") then Some(DEFAULT_PRICE) else Parse(raw.value)
  }

  function RoundHalfEven(x: real): int {
    var low := x.Floor;
    var rest := x - low as real;
    if rest < 0.5 || (rest == 0.5 && low % 2 == 0) then low else low + 1
  }

  /** `round(x, 4)` on exact decimals. */
  function Round4(x: real): real {
    RoundHalfEven(x * 10000.0) as real / 10000.0
  }

  function AmountFor(eventCount: nat, price: real): real {
    Round4(eventCount as real * price)
  }

  /** The rounding is to the nearest integer, and to the even one of two. */
  lemma {:induction false} RoundHalfEvenIff(x: real, k: int)
    ensures RoundHalfEven(x) == k <==>
            x - 0.5 < k as real < x + 0.5 || ((k as real == x - 0.5 || k as real == x + 0.5) && k % 2 == 0)
  {
    var low := x.Floor;
    assert low as real <= x < low as real + 1.0;
    if k < low { assert k as real <= low as real - 1.0; }
    if k > low + 1 { assert k as real >= low as real + 2.0; }
  }

  /** Four decimals: a whole number of ten-thousandths within half a one, and of two at the
      same distance the even one. */
  predicate ToFourDecimals(y: real, x: real) {
    && y * 10000.0 == (y * 10000.0).Floor as real && -0.00005 <= y - x <= 0.00005
    && (y - x == 0.00005 || y - x == -0.00005 ==> (y * 10000.0).Floor % 2 == 0)
  }

  lemma {:induction false} Round4IsNearest(x: real)
    ensures ToFourDecimals(Round4(x), x)
  {
    var scaled := x * 10000.0;
    var k := RoundHalfEven(scaled);
    RoundHalfEvenIff(scaled, k);
    hide RoundHalfEven;
    assert Round4(x) * 10000.0 == k as real;
  }

  /** The amount of a draft is the exact product, rounded. */
  lemma {:induction false} AmountIsNearest(eventCount: nat, price: real)
    ensures ToFourDecimals(AmountFor(eventCount, price), eventCount as real * price)
  {
    hide Round4, ToFourDecimals;
    Round4IsNearest(eventCount as real * price);
  }

  function DraftFields(call: Request, d: Draft): map<string, Field>
    requires call.body.CalculateBody?
  {
    map["tenant_id" := Text(call.tenant), "customer_id" := Text(call.body.customer),
        "period_start" := Text(call.body.periodStart), "period_end" := Text(call.body.periodEnd),
        "event_count" := Num(d.eventCount), "amount" := Dec(d.amount), "status" := Text("draft"),
        "created_at" := Num(d.createdAt), "unit_price" := Dec(d.price)]
  }

  function IssuedFields(issuedAt: int): map<string, Field> {
    map["status" := Text("issued"), "issued_at" := Num(issuedAt)]
  }

  function CustomerIn(fields: map<string, Field>): string {
    if "customer_id" in fields && fields["customer_id"].Text? then fields["customer_id"].s else ""
  }

  function AmountIn(fields: map<string, Field>): Option<real> {
    if "amount" in fields then Parse(fields["amount"]) else Some(0.0)
  }

  /** The `finally` block: a held slot is released on every way out of the view. */
  function LeaveView(hold: Hold, response: Response): Phase {
    if hold.Held? then Releasing(hold, response) else Finished(response)
  }

  predicate BodyFits(call: Request, step: ViewStep) {
    match step
    case Entering => true
    case Claiming => call.body.IngestBody?
    case Appending => call.body.IngestBody?
    case Reading => call.body.GenerateBody?
    case Issuing(_, _) => call.body.GenerateBody?
    case ExpiringIssued(_, _) => call.body.GenerateBody?
    case _ => call.body.CalculateBody?
  }

  /** Routing, then the tenant header, then the body. */
  function EnterView(call: Request, hold: Hold): Phase {
    if call.path != INGEST && call.path != CALCULATE && call.path != GENERATE then LeaveView(hold, NoSuchRoute)
    else if call.tenant == "" then LeaveView(hold, BadRequest)
    else if call.path == INGEST && call.body.IngestBody? then InView(Claiming, hold)
    else if call.path == CALCULATE && call.body.CalculateBody? then InView(Counting, hold)
    else if call.path == GENERATE && call.body.GenerateBody? then InView(Reading, hold)
    else LeaveView(hold, BadRequest)
  }

  // ---- The program ----

  /** The Redis command a request is about to send, or none if it only moves on. */
  function NextIssue(call: Request, phase: Phase): Option<Issue> {
    match phase
    case AtRateGate =>
      if ShouldGuard(call.path) && call.tenant != "" then
        Some(Issue(RateLimit(call.tenant), Consume(LimitsOf(call.tenant), CostOf(call.path))))
      else None
    case Acquiring(id, stamp, _) =>
      Some(Issue(Concurrency(call.tenant), Acquire(PlanFor(call.tenant).maxConcurrency, stamp, id)))
    case Releasing(Held(id, _, _), _) => Some(Issue(Concurrency(call.tenant), Release(id)))
    case InView(step, _) => if BodyFits(call, step) then ViewIssue(call, step) else None
    case _ => None
  }

  function ViewIssue(call: Request, step: ViewStep): Option<Issue>
    requires BodyFits(call, step)
  {
    match step
    case Entering => None
    case Claiming => Some(Issue(Idem(call.tenant, call.body.idempotencyKey), SetNx(IDEMPOTENCY_TTL)))
    case Appending =>
      Some(Issue(Events(call.tenant), Append(StreamEntry(call.body.idempotencyKey, call.body.payload))))
    case Counting => Some(Issue(Events(call.tenant), Length))
    case LookingUp(_) => Some(Issue(Pricing(call.tenant), GetField(call.body.customer)))
    case Drafting(d) => Some(Issue(Invoice(call.tenant, d.invoiceId), SetFields(DraftFields(call, d))))
    case ExpiringDraft(d) => Some(Issue(Invoice(call.tenant, d.invoiceId), Expire(INVOICE_TTL)))
    case Reading => Some(Issue(Invoice(call.tenant, call.body.invoiceId), GetAll))
    case Issuing(_, at) => Some(Issue(Invoice(call.tenant, call.body.invoiceId), SetFields(IssuedFields(at))))
    case ExpiringIssued(_, _) => Some(Issue(Invoice(call.tenant, call.body.invoiceId), Expire(INVOICE_TTL)))
  }

  /** A step without a Redis command. Reading the clock for the slot gate is one. */
  function Advance(call: Request, phase: Phase, inp: Input): Phase {
    match phase
    case AtRateGate => AtSlotGate
    case AtSlotGate =>
      if IsHeavy(call.path) && call.tenant != "" then Acquiring(inp.uuid, inp.host, inp.now)
      else InView(Entering, Unguarded)
    case InView(Entering, hold) => EnterView(call, hold)
    case _ => phase
  }

  /** Continue with the reply the client saw; `Failure` is an exception. */
  function Receive(call: Request, phase: Phase, seen: Reply, inp: Input): Phase {
    match phase
    case AtRateGate =>
      if seen.Tokens? && !seen.decision.allowed then
        Finished(if seen.decision.retry.After? then RateLimited(Bucket.RetryHeader(seen.decision.retry.seconds))
                 else ServerError)
      else AtSlotGate
    case Acquiring(id, stamp, at) =>
      if !seen.Slot? then InView(Entering, FailedOpen)
      else if seen.handle.admitted then InView(Entering, Held(id, stamp, at))
      else Finished(ConcurrencyLimited(seen.handle.inFlight, PlanFor(call.tenant).maxConcurrency))
    case InView(step, hold) => if BodyFits(call, step) then ViewReceive(call, step, hold, seen, inp) else phase
    case Releasing(_, response) => Finished(response)
    case _ => phase
  }

  function ViewReceive(call: Request, step: ViewStep, hold: Hold, seen: Reply, inp: Input): Phase
    requires BodyFits(call, step)
  {
    var failed := LeaveView(hold, ServerError);
    match step
    case Entering => InView(step, hold)
    case Claiming =>
      if !seen.Flag? then failed
      else if seen.created then InView(Appending, hold)
      else LeaveView(hold, Accepted(true))
    case Appending => if seen.EntryId? then LeaveView(hold, Accepted(false)) else failed
    case Counting => if seen.Count? then InView(LookingUp(seen.n), hold) else failed
    case LookingUp(n) =>
      if !seen.One? || PriceOf(seen.field).None? then failed
      else
        var price := PriceOf(seen.field).value;
        InView(Drafting(Draft("inv_" + inp.uuid, n, price, AmountFor(n, price), inp.host)), hold)
    case Drafting(d) => if seen.Count? then InView(ExpiringDraft(d), hold) else failed
    case ExpiringDraft(d) =>
      if seen.Count? then LeaveView(hold, Drafted(d.invoiceId, call.body.customer, d.eventCount, d.amount)) else failed
    case Reading =>
      if !seen.All? then failed
      else if seen.fields == map[] then LeaveView(hold, InvoiceNotFound)
      else InView(Issuing(seen.fields, inp.host), hold)
    case Issuing(fields, at) => if seen.Count? then InView(ExpiringIssued(fields, at), hold) else failed
    case ExpiringIssued(fields, at) =>
      if !seen.Count? || AmountIn(fields).None? then failed
      else LeaveView(hold, Issued(call.body.invoiceId, CustomerIn(fields), AmountIn(fields).value, at))
  }

  /** What Redis did is recorded from its own reply, not from what the client saw. */
  function Record(phase: Phase, m: Marks, acted: Option<Reply>, seen: Reply, now: int): Marks {
    match phase
    case Acquiring(id, _, _) =>
      if acted.Some? && acted.value.Slot? && acted.value.handle.admitted then
        m.(slot := Some(id), granted := seen.Slot?, acquireLost := !seen.Slot?)
      else m
    case Releasing(_, _) =>
      if acted.Some? && acted.value.Count? then m.(slot := None, releaseTries := m.releaseTries + 1)
      else m.(releaseFailed := true, releaseTries := m.releaseTries + 1)
    case InView(Claiming, _) => if acted == Some(Flag(true)) then m.(claimedAt := Some(now)) else m
    case InView(Appending, _) =>
      if acted.Some? && acted.value.EntryId? then m.(position := Some(acted.value.position)) else m
    case InView(Drafting(d), _) => if acted.Some? && acted.value.Count? then m.(draft := Some(d)) else m
    case InView(ExpiringDraft(_), _) => if acted.Some? && acted.value.Count? then m.(ttlSet := true) else m
    case _ => m
  }

  datatype LogEntry = LogEntry(call: Request, key: string, op: Op, reply: Reply)

  datatype Local = Local(store: Store, req: Req, log: seq<LogEntry>)

  /** How a request answered, if it has. */
  function AnswerOf(phase: Phase): Option<Response> {
    match phase
    case Releasing(_, response) => Some(response)
    case Finished(response) => Some(response)
    case _ => None
  }

  predicate Over(r: Req) {
    r.phase.Finished? || r.phase.Crashed?
  }

  /** One step of one request against the store. */
  function LocalStep(s: Store, r: Req, inp: Input): Local {
    if Over(r) then Local(s, r, [])
    else if inp.fault.Crash? then Local(s, r.(phase := Crashed), [])
    else
      match NextIssue(r.call, r.phase)
      case None => Local(s, r.(phase := Advance(r.call, r.phase, inp)), [])
      case Some(Issue(key, cmd)) =>
        if inp.fault.ErrorBefore? then
          Local(s, Req(r.call, Receive(r.call, r.phase, Failure, inp),
                       Record(r.phase, r.marks, None, Failure, inp.now)), [])
        else
          var out := Exec(Get(s, Render(key)), cmd, inp.now);
          var seen := if inp.fault.ReplyLost? then Failure else out.reply;
          Local(Put(s, Render(key), out.cell),
                Req(r.call, Receive(r.call, r.phase, seen, inp),
                    Record(r.phase, r.marks, Some(out.reply), seen, inp.now)),
                [LogEntry(r.call, Render(key), Op(inp.now, cmd), out.reply)])
  }

  /** What happens between two steps of a request: commands of others, then its own input. */
  datatype Turn = Turn(others: seq<Sent>, input: Input)

  /** One request over a shared store, for as many steps as there are turns. */
  function Served(s: Store, r: Req, turns: seq<Turn>): Local {
    if turns == [] then Local(s, r, [])
    else
      var before, turn := Served(s, r, turns[..|turns| - 1]), turns[|turns| - 1];
      var l := LocalStep(AfterAll(before.store, turn.others), before.req, turn.input);
      Local(l.store, l.req, before.log + l.log)
  }

  lemma {:induction false} ServedSnoc(s: Store, r: Req, turns: seq<Turn>, turn: Turn)
    ensures var before := Served(s, r, turns);
            var l := LocalStep(AfterAll(before.store, turn.others), before.req, turn.input);
            Served(s, r, turns + [turn]).store == l.store && Served(s, r, turns + [turn]).req == l.req
  {
    hide LocalStep;
    assert (turns + [turn])[..|turns|] == turns;
  }

  /** Turns with nobody else around. */
  function Alone(inputs: seq<Input>): seq<Turn> {
    if inputs == [] then [] else Alone(inputs[..|inputs| - 1]) + [Turn([], inputs[|inputs| - 1])]
  }

  /** The same, step by step. */
  function Solo(s: Store, r: Req, inputs: seq<Input>, n: nat): Local
    requires n <= |inputs|
  {
    if n == 0 then Local(s, r, [])
    else
      var before := Solo(s, r, inputs, n - 1);
      LocalStep(before.store, before.req, inputs[n - 1])
  }

  lemma {:induction false} SoloNext(s: Store, r: Req, inputs: seq<Input>, n: nat)
    requires n < |inputs|
    ensures var before := Solo(s, r, inputs, n);
            Solo(s, r, inputs, n + 1) == LocalStep(before.store, before.req, inputs[n])
    ensures Solo(s, r, inputs, 0) == Local(s, r, [])
  {
    hide LocalStep;
  }

  lemma {:induction false} SoloOfPrefix(s: Store, r: Req, inputs: seq<Input>, m: nat, n: nat)
    requires n <= m <= |inputs|
    ensures Solo(s, r, inputs[..m], n) == Solo(s, r, inputs, n)
  {
    hide LocalStep;
    if n > 0 { SoloOfPrefix(s, r, inputs, m, n - 1); }
  }

  lemma {:induction false} AloneIsSolo(s: Store, r: Req, inputs: seq<Input>)
    ensures var run := Served(s, r, Alone(inputs));
            run.store == Solo(s, r, inputs, |inputs|).store && run.req == Solo(s, r, inputs, |inputs|).req
  {
    hide LocalStep;
    if inputs != [] {
      var n := |inputs| - 1;
      AloneIsSolo(s, r, inputs[..n]);
      SoloOfPrefix(s, r, inputs, n, n);
      ServedSnoc(s, r, Alone(inputs[..n]), Turn([], inputs[n]));
    }
  }

  // ---- Facts the system-level proofs rest on ----

  /** A request only ever touches keys of its own tenant. */
  lemma {:induction false} OwnKeysOnly(call: Request, phase: Phase)
    ensures NextIssue(call, phase).Some? ==> NextIssue(call, phase).value.key.tenant == call.tenant
  {
  }

  /** The four ways one step changes a request. */
  predicate Moves(r: Req, next: Req, inp: Input, acted: Option<Reply>, seen: Reply) {
    || next == r
    || next == r.(phase := Crashed)
    || next == r.(phase := Advance(r.call, r.phase, inp))
    || (next == Req(r.call, Receive(r.call, r.phase, seen, inp), Record(r.phase, r.marks, acted, seen, inp.now))
        && (seen == Failure || acted == Some(seen)))
  }

  /** `acted` and `seen` of a step: the reply Redis gave, and the one the client saw. */
  function ActedIn(l: Local): Option<Reply> {
    if l.log == [] then None else Some(l.log[0].reply)
  }

  function SeenIn(l: Local, inp: Input): Reply {
    if l.log == [] || inp.fault.ReplyLost? then Failure else l.log[0].reply
  }

  lemma {:induction false} LocalStepMoves(s: Store, r: Req, inp: Input)
    ensures var l := LocalStep(s, r, inp);
            && Moves(r, l.req, inp, ActedIn(l), SeenIn(l, inp)) && (Over(r) ==> l.req == r)
            && (l.log != [] ==>
                  l.req == Req(r.call, Receive(r.call, r.phase, SeenIn(l, inp), inp),
                               Record(r.phase, r.marks, ActedIn(l), SeenIn(l, inp), inp.now)))
  {
    hide Exec, Render, Put, Get, Receive, Record, Advance, NextIssue;
  }
}
