/** The worker code in its own form: the use cases and the two middlewares as methods with
    exceptions, `finally` and worker death, each proved to follow the request program. */
module Gateway {
  import opened TenantPlan
  import opened KeySchema
  import opened RedisStore
  import opened Program
  import opened RedisServer
  import Bucket = TokenBucket
  import Semaphore

  /** How a piece of code ends: with a value, with an exception, or with its worker. */
  datatype Attempt<T> = Done(value: T) | Raised | Died {
    predicate IsFailure() { !Done? }

    function PropagateFailure<U>(): Attempt<U>
      requires IsFailure()
    {
      if Raised? then Raised else Died
    }

    function Extract(): T
      requires Done?
    {
      value
    }
  }

  datatype Recorded = Recorded(entryId: Option<nat>, duplicate: bool)

  /** The reply a client has seen when its command ended this way. */
  function SeenOf(a: Attempt<Reply>): Reply {
    if a.Done? then a.value else Failure
  }

  /** Every command has its own kind of reply, or fails. */
  predicate Suits(cmd: Command, reply: Reply) {
    reply.Failure?
    || match cmd
       case Consume(_, _) => reply.Tokens?
       case Acquire(_, _, _) => reply.Slot?
       case Release(_) => reply.Count?
       case SetNx(_) => reply.Flag?
       case Append(_) => reply.EntryId?
       case Length => reply.Count?
       case GetField(_) => reply.One?
       case SetFields(_) => reply.Count?
       case Expire(_) => reply.Count?
       case GetAll => reply.All?
  }

  lemma {:induction false} RepliesSuit(c: Cell, cmd: Command, now: int)
    ensures Suits(cmd, Exec(c, cmd, now).reply)
  {
  }

  lemma {:induction false} ServedNext(s: Store, r: Req, turns: seq<Turn>, n: nat)
    requires n < |turns|
    ensures var before := Served(s, r, turns[..n]);
            var l := LocalStep(AfterAll(before.store, turns[n].others), before.req, turns[n].input);
            Served(s, r, turns[..n + 1]).store == l.store && Served(s, r, turns[..n + 1]).req == l.req
  {
    hide LocalStep, Served;
    assert turns[..n + 1] == turns[..n] + [turns[n]];
    ServedSnoc(s, r, turns[..n], turns[n]);
  }

  /** One step of a request that has a command to send. */
  lemma {:induction false} SendStep(s: Store, r: Req, key: Key, cmd: Command, inp: Input)
    requires !Over(r) && NextIssue(r.call, r.phase) == Some(Issue(key, cmd))
    ensures var l := LocalStep(s, r, inp);
            var out := Exec(Get(s, Render(key)), cmd, inp.now);
            && l.req.call == r.call
            && (inp.fault.Crash? ==> l.store == s && l.req.phase == Crashed)
            && (inp.fault.ErrorBefore? ==> l.store == s && l.req.phase == Receive(r.call, r.phase, Failure, inp))
            && (inp.fault.NoFault? || inp.fault.ReplyLost? ==>
                  l.store == Put(s, Render(key), out.cell)
                  && l.req.phase == Receive(r.call, r.phase, if inp.fault.ReplyLost? then Failure else out.reply, inp))
  {
    hide Exec, Render, Put, Get, Receive, Record, NextIssue;
  }

  /** A request passes each gate once and its view sends at most four commands. */
  const MAX_STEPS := 9

  /** One worker serving one request while others use the same Redis: before each of its steps
      the commands of that turn's other clients run. `peer` is the same request in the request
      program. */
  class Worker {
    const redis: Server
    const turns: seq<Turn>
    const call: Request
    ghost const begun: Store
    ghost var peer: Req
    var next: nat

    constructor (redis: Server, turns: seq<Turn>, call: Request)
      ensures this.redis == redis && this.turns == turns && this.call == call && begun == redis.store
      ensures next == 0 && peer == Arrive(call) && Tracks()
    {
      this.redis, this.turns, this.call, this.begun := redis, turns, call, redis.store;
      peer, next := Arrive(call), 0;
    }

    /** The worker has done to Redis what the request program does in the same turns. */
    ghost predicate Tracks()
      reads this, redis
    {
      next <= |turns| && peer.call == call
      && redis.store == Served(begun, Arrive(call), turns[..next]).store
      && peer == Served(begun, Arrive(call), turns[..next]).req
    }

    /** At least `steps` steps can still be taken, in phase `phase`. */
    ghost predicate At(phase: Phase, steps: nat)
      reads this, redis
    {
      Tracks() && peer.phase == phase && next + steps <= |turns|
    }

    /** The input of the step just taken: the host clock and a fresh identifier. */
    function Latest(): Input
      requires 0 < next <= |turns|
      reads this
    {
      turns[next - 1].input
    }

    /** One Redis round trip. An exception is an error before Redis acted, a lost reply, or an
        error reply. */
    method Send(key: Key, cmd: Command) returns (a: Attempt<Reply>)
      requires Tracks() && next < |turns| && !Over(peer) && NextIssue(call, peer.phase) == Some(Issue(key, cmd))
      modifies this`next, this`peer, redis
      ensures Tracks() && next == old(next) + 1
      ensures a.Died? ==> peer.phase == Crashed
      ensures !a.Died? ==> peer.phase == Receive(call, old(peer.phase), SeenOf(a), Latest())
      ensures a.Done? ==> !a.value.Failure? && Suits(cmd, a.value)
    {
      hide LocalStep, Exec, Render, Put, Get, Receive, Record, NextIssue, Served, Over, Suits, AfterAll;
      var input := turns[next].input;
      redis.ExecuteAll(turns[next].others);
      ghost var before := redis.store;
      SendStep(before, peer, key, cmd, input);
      ServedNext(begun, Arrive(call), turns, next);
      next := next + 1;
      peer := LocalStep(before, peer, input).req;
      if input.fault.Crash? { return Died; }
      if input.fault.ErrorBefore? { return Raised; }
      var reply := redis.Execute(Render(key), cmd, input.now);
      RepliesSuit(Get(before, Render(key)), cmd, input.now);
      a := if input.fault.ReplyLost? || reply.Failure? then Raised else Done(reply);
    }

    /** A point between two commands where the worker may die. */
    method Pause() returns (alive: bool)
      requires Tracks() && next < |turns| && !Over(peer) && NextIssue(call, peer.phase) == None
      modifies this`next, this`peer, redis
      ensures Tracks() && next == old(next) + 1
      ensures peer.phase == if alive then Advance(call, old(peer.phase), Latest()) else Crashed
    {
      hide Exec, Render, Put, Get, Receive, Record, NextIssue, Served, Over, AfterAll, Advance;
      redis.ExecuteAll(turns[next].others);
      ServedNext(begun, Arrive(call), turns, next);
      peer := LocalStep(redis.store, peer, turns[next].input).req;
      alive := !turns[next].input.fault.Crash?;
      next := next + 1;
    }

    /** The view is over: with its response, with an exception, or with the worker. */
    ghost predicate Left(hold: Hold, a: Attempt<Response>)
      reads this
    {
      match a
      case Done(response) => peer.phase == LeaveView(hold, response)
      case Raised => peer.phase == LeaveView(hold, ServerError)
      case Died => peer.phase == Crashed
    }

    /** A round trip from inside the view; an exception ends the view. */
    method SendFromView(ghost step: ViewStep, ghost hold: Hold, key: Key, cmd: Command) returns (a: Attempt<Reply>)
      requires At(InView(step, hold), 1) && BodyFits(call, step) && ViewIssue(call, step) == Some(Issue(key, cmd))
      modifies this`next, this`peer, redis
      ensures Tracks() && next == old(next) + 1
      ensures a.Died? ==> peer.phase == Crashed
      ensures a.Raised? ==> peer.phase == LeaveView(hold, ServerError)
      ensures a.Done? ==> Suits(cmd, a.value) && !a.value.Failure?
                          && peer.phase == ViewReceive(call, step, hold, a.value, Latest())
    {
      hide Served, AfterAll, Exec, LocalStep, Tracks;
      a := Send(key, cmd);
    }

    // ---- Use cases ----

    method ClaimIdempotency(tenant: string, idempotencyKey: string, ghost hold: Hold) returns (a: Attempt<bool>)
      requires At(InView(Claiming, hold), 1)
      requires call.body.IngestBody? && tenant == call.tenant && idempotencyKey == call.body.idempotencyKey
      modifies this`next, this`peer, redis
      ensures Tracks() && next <= old(next) + 1
      ensures match a
              case Done(first) =>
                peer.phase == if first then InView(Appending, hold) else LeaveView(hold, Accepted(true))
              case Raised => peer.phase == LeaveView(hold, ServerError)
              case Died => peer.phase == Crashed
    {
      var reply :- SendFromView(Claiming, hold, Idem(tenant, idempotencyKey), SetNx(IDEMPOTENCY_TTL));
      a := Done(reply.created);
    }

    /** Claim first, append only on a fresh claim. */
    method RecordEvent(tenant: string, idempotencyKey: string, payload: map<string, Field>, ghost hold: Hold)
      returns (a: Attempt<Recorded>)
      requires At(InView(Claiming, hold), 2)
      requires call.body == IngestBody(idempotencyKey, payload) && tenant == call.tenant
      modifies this`next, this`peer, redis
      ensures Tracks() && next <= old(next) + 2
      ensures match a
              case Done(event) =>
                peer.phase == LeaveView(hold, Accepted(event.duplicate)) && (event.duplicate <==> event.entryId == None)
              case Raised => peer.phase == LeaveView(hold, ServerError)
              case Died => peer.phase == Crashed
    {
      hide NextIssue, Receive, LeaveView, Tracks;
      var first :- ClaimIdempotency(tenant, idempotencyKey, hold);
      if !first { return Done(Recorded(None, true)); }
      var reply :- SendFromView(Appending, hold, Events(tenant), Append(StreamEntry(idempotencyKey, payload)));
      a := Done(Recorded(Some(reply.position), false));
    }

    /** The draft hash and then its expiry. */
    method PersistDraft(tenant: string, draft: Draft, ghost hold: Hold) returns (a: Attempt<()>)
      requires At(InView(Drafting(draft), hold), 2) && call.body.CalculateBody? && tenant == call.tenant
      modifies this`next, this`peer, redis
      ensures Tracks() && next <= old(next) + 2
      ensures Left(hold, if a.Done?
                         then Done(Drafted(draft.invoiceId, call.body.customer, draft.eventCount, draft.amount))
                         else a.PropagateFailure())
    {
      hide NextIssue, Receive, LeaveView, Tracks;
      var written :- SendFromView(Drafting(draft), hold, Invoice(tenant, draft.invoiceId),
                                  SetFields(DraftFields(call, draft)));
      var expiring :- SendFromView(ExpiringDraft(draft), hold, Invoice(tenant, draft.invoiceId), Expire(INVOICE_TTL));
      a := Done(());
    }

    /** Count, price, draft and expiry in four round trips. */
    method CalculateFor(tenant: string, customer: string, ghost hold: Hold) returns (a: Attempt<Response>)
      requires At(InView(Counting, hold), 4)
      requires call.body.CalculateBody? && tenant == call.tenant && customer == call.body.customer
      modifies this`next, this`peer, redis
      ensures Tracks() && next <= old(next) + 4 && Left(hold, a)
    {
      hide NextIssue, Receive, LeaveView, Tracks;
      var counted :- SendFromView(Counting, hold, Events(tenant), Length);
      var raw :- SendFromView(LookingUp(counted.n), hold, Pricing(tenant), GetField(customer));
      var price := PriceOf(raw.field);
      if price.None? { return Raised; }
      var amount := AmountFor(counted.n, price.value);
      var draft := Draft("inv_" + Latest().uuid, counted.n, price.value, amount, Latest().host);
      var stored :- PersistDraft(tenant, draft, hold);
      a := Done(Drafted(draft.invoiceId, customer, counted.n, amount));
    }

    /** The status and its expiry, answered from what was read before. */
    method FlipToIssued(tenant: string, invoiceId: string, draft: map<string, Field>, issuedAt: int, ghost hold: Hold)
      returns (a: Attempt<Response>)
      requires At(InView(Issuing(draft, issuedAt), hold), 2) && call.body == GenerateBody(invoiceId)
               && tenant == call.tenant
      modifies this`next, this`peer, redis
      ensures Tracks() && next <= old(next) + 2 && Left(hold, a)
    {
      hide NextIssue, Receive, LeaveView, Tracks;
      var written :- SendFromView(Issuing(draft, issuedAt), hold, Invoice(tenant, invoiceId),
                                  SetFields(IssuedFields(issuedAt)));
      var expiring :- SendFromView(ExpiringIssued(draft, issuedAt), hold, Invoice(tenant, invoiceId),
                                   Expire(INVOICE_TTL));
      var amount := AmountIn(draft);
      if amount.None? { return Raised; }
      a := Done(Issued(invoiceId, CustomerIn(draft), amount.value, issuedAt));
    }

    /** Read, flip to issued, expire again: three round trips that are not atomic. */
    method GenerateFor(tenant: string, invoiceId: string, ghost hold: Hold) returns (a: Attempt<Response>)
      requires At(InView(Reading, hold), 3)
      requires call.body == GenerateBody(invoiceId) && tenant == call.tenant
      modifies this`next, this`peer, redis
      ensures Tracks() && next <= old(next) + 3 && Left(hold, a)
    {
      hide NextIssue, Receive, LeaveView, Tracks;
      var read :- SendFromView(Reading, hold, Invoice(tenant, invoiceId), GetAll);
      if read.fields == map[] { return Done(InvoiceNotFound); }
      var issuedAt := Latest().host;
      a := FlipToIssued(tenant, invoiceId, read.fields, issuedAt, hold);
    }

    /** Routing, the tenant header, the body, then the use case. */
    method View(ghost hold: Hold) returns (a: Attempt<Response>)
      requires At(InView(Entering, hold), 5)
      modifies this`next, this`peer, redis
      ensures Tracks() && next <= old(next) + 5 && Left(hold, a)
    {
      var alive := Pause();
      if !alive { return Died; }
      if call.path != INGEST && call.path != CALCULATE && call.path != GENERATE { return Done(NoSuchRoute); }
      if call.tenant == "" { return Done(BadRequest); }
      if call.path == INGEST && call.body.IngestBody? {
        var event :- RecordEvent(call.tenant, call.body.idempotencyKey, call.body.payload, hold);
        a := Done(Accepted(event.duplicate));
      } else if call.path == CALCULATE && call.body.CalculateBody? {
        a := CalculateFor(call.tenant, call.body.customer, hold);
      } else if call.path == GENERATE && call.body.GenerateBody? {
        a := GenerateFor(call.tenant, call.body.invoiceId, hold);
      } else {
        a := Done(BadRequest);
      }
    }

    // ---- The slot gate ----

    /** Sample the clock and an identifier, then run the script. */
    method AcquireSlot(tenant: string, capacity: nat)
      returns (a: Attempt<Semaphore.Handle>, slotId: string, ghost hold: Hold)
      requires At(AtSlotGate, 2) && IsHeavy(call.path) && tenant == call.tenant != ""
      requires capacity == PlanFor(tenant).maxConcurrency
      modifies this`next, this`peer, redis
      ensures Tracks() && next <= old(next) + 2
      ensures hold.Held? && hold.slotId == slotId
      ensures match a
              case Done(handle) =>
                peer.phase == if handle.admitted then InView(Entering, hold)
                              else Finished(ConcurrencyLimited(handle.inFlight, capacity))
              case Raised => peer.phase == InView(Entering, FailedOpen)
              case Died => peer.phase == Crashed
    {
      a, slotId, hold := Died, "", Held("", 0, 0);
      var alive := Pause();
      if !alive { return; }
      var stamp := Latest().host;
      slotId, hold := Latest().uuid, Held(Latest().uuid, stamp, Latest().now);
      var sent := Send(Concurrency(tenant), Acquire(capacity, stamp, slotId));
      a := if sent.Done? then Done(sent.value.handle) else sent.PropagateFailure();
    }

    method ReleaseSlot(tenant: string, slotId: string, ghost hold: Hold, ghost response: Response)
      returns (a: Attempt<()>)
      requires At(Releasing(hold, response), 1) && hold.Held? && slotId == hold.slotId && tenant == call.tenant
      modifies this`next, this`peer, redis
      ensures Tracks() && next <= old(next) + 1
      ensures peer.phase == if a.Died? then Crashed else Finished(response)
    {
      var reply :- Send(Concurrency(tenant), Release(slotId));
      a := Done(());
    }

    /** Acquire before, release in `finally`: on a response and on an exception of the view, but
        not on a refusal or when the gate failed open. */
    method ConcurrencyGate() returns (a: Attempt<Response>)
      requires At(AtSlotGate, 8)
      modifies this`next, this`peer, redis
      ensures Tracks() && next <= old(next) + 8 && Left(Unguarded, a)
    {
      if !IsHeavy(call.path) || call.tenant == "" {
        var alive := Pause();
        if !alive { return Died; }
        a := View(Unguarded);
        return;
      }
      var capacity := PlanFor(call.tenant).maxConcurrency;
      var acquired, slotId, hold := AcquireSlot(call.tenant, capacity);
      match acquired
      case Died => a := Died;
      case Raised => a := View(FailedOpen);
      case Done(handle) =>
        if !handle.admitted { return Done(ConcurrencyLimited(handle.inFlight, capacity)); }
        a := View(hold);
        if a.Died? { return; }
        var released := ReleaseSlot(call.tenant, slotId, hold, if a.Done? then a.value else ServerError);
        if released.Died? { a := Died; }
    }

    // ---- The rate gate ----

    method CheckAndConsume(tenant: string, path: string) returns (a: Attempt<Bucket.Decision>)
      requires At(AtRateGate, 1) && ShouldGuard(path) && path == call.path && tenant == call.tenant != ""
      modifies this`next, this`peer, redis
      ensures Tracks() && next <= old(next) + 1
      ensures match a
              case Done(d) =>
                peer.phase == if d.allowed then AtSlotGate
                              else Finished(if d.retry.After? then RateLimited(Bucket.RetryHeader(d.retry.seconds))
                                            else ServerError)
              case Raised => peer.phase == AtSlotGate
              case Died => peer.phase == Crashed
    {
      var limits := PlanFor(tenant);
      var cost := CostOf(path);
      var reply :- Send(RateLimit(tenant), Consume(Bucket.Limits(limits.burst, limits.requestsPerSecond), cost));
      a := Done(reply.decision);
    }

    /** Charge first; a refused request goes no further, an error of the gate lets it through. */
    method RateGate() returns (a: Attempt<Response>)
      requires At(AtRateGate, MAX_STEPS)
      modifies this`next, this`peer, redis
      ensures Tracks() && next <= old(next) + MAX_STEPS && Left(Unguarded, a)
    {
      if !ShouldGuard(call.path) || call.tenant == "" {
        var alive := Pause();
        if !alive { return Died; }
        a := ConcurrencyGate();
        return;
      }
      var decision := CheckAndConsume(call.tenant, call.path);
      match decision
      case Died => a := Died;
      case Raised => a := ConcurrencyGate();
      case Done(d) =>
        if d.allowed {
          a := ConcurrencyGate();
        } else if d.retry.Never? {
          a := Raised;
        } else {
          a := Done(RateLimited(Bucket.RetryHeader(d.retry.seconds)));
        }
    }

    /** The whole pipeline is the request program: whatever other clients do in between, what
        it leaves in Redis and what it answers are those of the program in the same turns, and
        it ends within nine steps. */
    method Serve() returns (response: Option<Response>)
      requires At(AtRateGate, MAX_STEPS) && next == 0
      modifies this`next, this`peer, redis
      ensures next <= MAX_STEPS
      ensures var run := Served(begun, Arrive(call), turns[..next]);
              redis.store == run.store
              && run.req.phase == if response.Some? then Finished(response.value) else Crashed
    {
      var a := RateGate();
      match a
      case Done(r) => response := Some(r);
      case Raised => response := Some(ServerError);
      case Died => response := None;
    }
  }
}
