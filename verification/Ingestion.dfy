/** Claim-then-append ingestion over whole runs: claims of one marker lie a marker lifetime
    apart, the stream is exactly the appended claims, and nothing is counted twice. */
module Ingestion {
  import opened TenantPlan
  import opened KeySchema
  import opened RedisStore
  import opened Program
  import opened Platform
  import Semaphore

  /** Seven days in microseconds. */
  const SEVEN_DAYS: int := 604_800_000_000

  // ---- One request ----

  /** Claim before append; only a claim leads to an append, and at most one of each. */
  predicate ClaimsFirst(r: Req) {
    var m := r.marks;
    && (m.claimedAt.Some? ==> r.call.body.IngestBody?)
    && (m.position.Some? ==> m.claimedAt.Some?)
    && match r.phase
       case InView(Appending, _) => m.claimedAt.Some? && m.position == None
       case InView(step, _) => m.claimedAt == None && m.position == None && BodyFits(r.call, step)
       case Releasing(_, response) => Answered(m, response)
       case Finished(response) => Answered(m, response)
       case Crashed => true
       case _ => m.claimedAt == None && m.position == None
  }

  /** `duplicate=False` is only answered for an event that is in the stream. */
  predicate Answered(m: Marks, response: Response) {
    (response == Accepted(false) ==> m.position.Some?) && (response == Accepted(true) ==> m.claimedAt == None)
  }

  lemma {:induction false} ClaimsFirstAdvance(r: Req, inp: Input)
    requires ClaimsFirst(r)
    ensures ClaimsFirst(r.(phase := Advance(r.call, r.phase, inp)))
  {
    hide IsHeavy;
  }

  lemma {:induction false} ClaimsFirstReceive(r: Req, acted: Option<Reply>, seen: Reply, inp: Input)
    requires ClaimsFirst(r) && (seen == Failure || acted == Some(seen))
    ensures ClaimsFirst(Req(r.call, Receive(r.call, r.phase, seen, inp),
                            Record(r.phase, r.marks, acted, seen, inp.now)))
  {
    hide PriceOf, AmountFor, CustomerIn, AmountIn, PlanFor;
  }

  lemma {:induction false} ClaimsFirstStep(s: Store, r: Req, inp: Input)
    requires ClaimsFirst(r)
    ensures ClaimsFirst(LocalStep(s, r, inp).req)
  {
    hide LocalStep, Receive, Record, Advance;
    LocalStepMoves(s, r, inp);
    var l := LocalStep(s, r, inp);
    ClaimsFirstAdvance(r, inp);
    if SeenIn(l, inp) == Failure || ActedIn(l) == Some(SeenIn(l, inp)) {
      ClaimsFirstReceive(r, ActedIn(l), SeenIn(l, inp), inp);
    }
  }

  /** What a step does to the claim and to the stream position of its request. */
  lemma {:induction false} IngestMarksStep(s: Store, r: Req, inp: Input)
    requires ClaimsFirst(r)
    ensures var l := LocalStep(s, r, inp);
            var claims := l.log != [] && l.log[0].op.cmd.SetNx? && l.log[0].reply == Flag(true);
            var appends := l.log != [] && l.log[0].op.cmd.Append? && l.log[0].reply.EntryId?;
            && l.req.marks.claimedAt == (if claims then Some(inp.now) else r.marks.claimedAt)
            && l.req.marks.position == (if appends then Some(l.log[0].reply.position) else r.marks.position)
            && (claims ==> r.call.body.IngestBody? && r.marks.claimedAt == None)
            && (appends ==> r.call.body.IngestBody? && r.marks.position == None)
  {
    hide LocalStep, Receive, Advance, Exec, DraftFields, IssuedFields, LimitsOf, PlanFor, CostOf, IsHeavy, ShouldGuard;
    LocalStepMoves(s, r, inp);
    LocalStepEffect(s, r, inp);
  }

  /** `duplicate=True` is only answered when the marker was already there. */
  lemma {:induction false} DuplicateStep(s: Store, r: Req, inp: Input)
    requires AnswerOf(LocalStep(s, r, inp).req.phase) == Some(Accepted(true))
             && AnswerOf(r.phase) != Some(Accepted(true))
    ensures var l := LocalStep(s, r, inp);
            l.log != [] && l.log[0].op.cmd.SetNx? && l.log[0].reply == Flag(false)
  {
    hide LocalStep, Exec, DraftFields, IssuedFields, LimitsOf, PlanFor, CostOf, IsHeavy, ShouldGuard, PriceOf,
         AmountFor, CustomerIn, AmountIn;
    LocalStepMoves(s, r, inp);
    LocalStepEffect(s, r, inp);
  }

  lemma {:induction false} IdemIssues(call: Request, phase: Phase, k: Key)
    requires NextIssue(call, phase).Some? && k.Idem?
    ensures var i := NextIssue(call, phase).value;
            && (i.cmd.SetNx? <==> i.key.Idem?)
            && (i.cmd.SetNx? ==> call.body.IngestBody?
                                 && i == Issue(Idem(call.tenant, call.body.idempotencyKey), SetNx(SEVEN_DAYS)))
            && (Render(i.key) == Render(k) ==> i.key.Idem?)
  {
    var i := NextIssue(call, phase).value;
    if Render(i.key) == Render(k) { RenderInjective(i.key, k); }
  }

  // ---- Markers ----

  function MarkerKey(r: Req): string
    requires r.call.body.IngestBody?
  {
    Render(Idem(r.call.tenant, r.call.body.idempotencyKey))
  }

  predicate Claimed(sys: Sys, r: nat) {
    r in sys.reqs && sys.reqs[r].call.body.IngestBody? && sys.reqs[r].marks.claimedAt.Some?
  }

  function ClaimTime(sys: Sys, r: nat): int
    requires Claimed(sys, r)
  {
    sys.reqs[r].marks.claimedAt.value
  }

  /** The marker in the store is the latest claim's, and outlives every claim by the SEVEN_DAYS. */
  predicate MarkerCovers(c: Cell, time: int) {
    c.Present? && c.value.Marker? && c.expiry.At? && c.expiry.deadline >= time + SEVEN_DAYS
  }

  predicate MarkerOf(c: Cell, time: int) {
    c == Present(Marker, At(time + SEVEN_DAYS))
  }

  ghost predicate Markers(sys: Sys) {
    (forall r :: Claimed(sys, r) ==> MarkerCovers(Get(sys.store, MarkerKey(sys.reqs[r])), ClaimTime(sys, r)))
    && (forall k: Key :: k.Idem? && Get(sys.store, Render(k)).Present? ==>
          exists r :: Claimed(sys, r) && MarkerKey(sys.reqs[r]) == Render(k)
                      && MarkerOf(Get(sys.store, Render(k)), ClaimTime(sys, r)))
  }

  /** Two claims of one marker are at least a marker lifetime apart. */
  ghost predicate Apart(sys: Sys) {
    forall r, q :: Claimed(sys, r) && Claimed(sys, q) && r != q && MarkerKey(sys.reqs[r]) == MarkerKey(sys.reqs[q]) ==>
      ClaimTime(sys, r) >= ClaimTime(sys, q) + SEVEN_DAYS || ClaimTime(sys, q) >= ClaimTime(sys, r) + SEVEN_DAYS
  }

  ghost predicate AllClaimFirst(sys: Sys) {
    forall r :: r in sys.reqs ==> ClaimsFirst(sys.reqs[r])
  }

  lemma {:induction false} ClaimOnCell(c: Cell, now: int)
    ensures var out := Exec(c, SetNx(SEVEN_DAYS), now);
            (out.reply == Flag(true) || out.reply == Flag(false))
            && (out.reply == Flag(true) ==> MarkerOf(out.cell, now)
                                            && forall t :: MarkerCovers(c, t) ==> now >= t + SEVEN_DAYS)
            && (out.reply == Flag(false) ==> out.cell == c && c.Present?)
  {
  }

  /** The cell of one marker key after a step, and who claimed it. */
  lemma {:induction false} MarkerCellStep(sys: Sys, item: Item, k: Key)
    requires k.Idem? && AllClaimFirst(sys)
    ensures var key := Render(k);
            var before, after := Get(sys.store, key), Get(Step(sys, item).store, key);
            if after == before then true
            else item.rid in sys.reqs && Claimed(Step(sys, item), item.rid) && !Claimed(sys, item.rid)
                 && MarkerKey(sys.reqs[item.rid]) == key && MarkerOf(after, item.input.now)
                 && ClaimTime(Step(sys, item), item.rid) == item.input.now
                 && forall t :: MarkerCovers(before, t) ==> item.input.now >= t + SEVEN_DAYS
  {
    hide Exec, Render, Get, Put, NextIssue, LocalStep, MarkerOf, MarkerCovers, ClaimsFirst;
    StepEffect(sys, item);
    if Executed(sys, item).Some? {
      var e := Executed(sys, item).value;
      var r := sys.reqs[item.rid];
      IdemIssues(r.call, r.phase, k);
      GetPut(sys.store, e.key, Exec(Get(sys.store, e.key), e.op.cmd, e.op.now).cell, Render(k));
      if e.op.cmd.SetNx? {
        ClaimOnCell(Get(sys.store, e.key), e.op.now);
        IngestMarksStep(sys.store, r, item.input);
        LocalStepEffect(sys.store, r, item.input);
      }
    }
  }

  /** A new claim appears exactly when the step set that request's marker. */
  lemma {:induction false} NewClaim(sys: Sys, item: Item, r: nat)
    requires AllClaimFirst(sys) && Claimed(Step(sys, item), r)
    ensures if Claimed(sys, r) then ClaimTime(Step(sys, item), r) == ClaimTime(sys, r)
                                    && MarkerKey(Step(sys, item).reqs[r]) == MarkerKey(sys.reqs[r])
            else r == item.rid && r in sys.reqs && sys.reqs[r].call.body.IngestBody?
                 && ClaimTime(Step(sys, item), r) == item.input.now
                 && MarkerKey(Step(sys, item).reqs[r]) == MarkerKey(sys.reqs[r])
                 && var before := Get(sys.store, MarkerKey(sys.reqs[r]));
                    MarkerOf(Get(Step(sys, item).store, MarkerKey(sys.reqs[r])), item.input.now)
                    && forall t :: MarkerCovers(before, t) ==> item.input.now >= t + SEVEN_DAYS
  {
    hide Exec, Render, Get, Put, NextIssue, LocalStep, MarkerOf, MarkerCovers, ClaimsFirst;
    if item.rid in sys.reqs {
      var q := sys.reqs[item.rid];
      LocalStepEffect(sys.store, q, item.input);
      IngestMarksStep(sys.store, q, item.input);
      if r == item.rid && !Claimed(sys, r) {
        StepEffect(sys, item);
        var e := Executed(sys, item).value;
        IdemIssues(q.call, q.phase, Idem("", ""));
        ClaimOnCell(Get(sys.store, e.key), e.op.now);
        GetPut(sys.store, e.key, Exec(Get(sys.store, e.key), e.op.cmd, e.op.now).cell, e.key);
      }
    }
  }

  lemma {:induction false} MarkersStep(sys: Sys, item: Item)
    requires Markers(sys) && Apart(sys) && AllClaimFirst(sys)
    ensures Markers(Step(sys, item)) && Apart(Step(sys, item))
  {
    hide Step, Render, Get, MarkerKey, ClaimsFirst;
    var after := Step(sys, item);
    forall r | Claimed(after, r)
      ensures MarkerCovers(Get(after.store, MarkerKey(after.reqs[r])), ClaimTime(after, r))
    {
      NewClaim(sys, item, r);
      if Claimed(sys, r) { CoverKept(sys, item, r); }
    }
    forall k: Key | k.Idem? && Get(after.store, Render(k)).Present?
      ensures exists r :: Claimed(after, r) && MarkerKey(after.reqs[r]) == Render(k)
                          && MarkerOf(Get(after.store, Render(k)), ClaimTime(after, r))
    {
      SomeClaimant(sys, item, k);
    }
    forall r, q |
      Claimed(after, r) && Claimed(after, q) && r != q && MarkerKey(after.reqs[r]) == MarkerKey(after.reqs[q])
      ensures ClaimTime(after, r) >= ClaimTime(after, q) + SEVEN_DAYS
              || ClaimTime(after, q) >= ClaimTime(after, r) + SEVEN_DAYS
    {
      NewClaim(sys, item, r);
      NewClaim(sys, item, q);
    }
  }

  lemma {:induction false} ClaimsStay(sys: Sys, item: Item, r: nat)
    requires AllClaimFirst(sys) && Claimed(sys, r)
    ensures Claimed(Step(sys, item), r) && ClaimTime(Step(sys, item), r) == ClaimTime(sys, r)
    ensures MarkerKey(Step(sys, item).reqs[r]) == MarkerKey(sys.reqs[r])
  {
    hide Exec, Render, Get, Put, NextIssue, LocalStep, ClaimsFirst;
    if item.rid in sys.reqs {
      LocalStepEffect(sys.store, sys.reqs[item.rid], item.input);
      IngestMarksStep(sys.store, sys.reqs[item.rid], item.input);
    }
  }

  lemma {:induction false} CoverKept(sys: Sys, item: Item, r: nat)
    requires Markers(sys) && AllClaimFirst(sys) && Claimed(sys, r)
    ensures MarkerCovers(Get(Step(sys, item).store, MarkerKey(sys.reqs[r])), ClaimTime(sys, r))
  {
    hide Step, Render, Get, ClaimsFirst;
    var call := sys.reqs[r].call;
    assert MarkerCovers(Get(sys.store, MarkerKey(sys.reqs[r])), ClaimTime(sys, r));
    MarkerCellStep(sys, item, Idem(call.tenant, call.body.idempotencyKey));
  }

  lemma {:induction false} SomeClaimant(sys: Sys, item: Item, k: Key)
    requires Markers(sys) && AllClaimFirst(sys) && k.Idem? && Get(Step(sys, item).store, Render(k)).Present?
    ensures var after := Step(sys, item);
            exists r :: Claimed(after, r) && MarkerKey(after.reqs[r]) == Render(k)
                        && MarkerOf(Get(after.store, Render(k)), ClaimTime(after, r))
  {
    hide Step, Render, Get, MarkerKey, MarkerOf, MarkerCovers, ClaimsFirst;
    var after := Step(sys, item);
    MarkerCellStep(sys, item, k);
    if Get(after.store, Render(k)) == Get(sys.store, Render(k)) {
      var r :| Claimed(sys, r) && MarkerKey(sys.reqs[r]) == Render(k)
               && MarkerOf(Get(sys.store, Render(k)), ClaimTime(sys, r));
      ClaimsStay(sys, item, r);
      assert Claimed(after, r) && MarkerKey(after.reqs[r]) == Render(k)
             && MarkerOf(Get(after.store, Render(k)), ClaimTime(after, r));
    } else {
      NewClaim(sys, item, item.rid);
      assert Claimed(after, item.rid) && MarkerKey(after.reqs[item.rid]) == Render(k)
             && MarkerOf(Get(after.store, Render(k)), ClaimTime(after, item.rid));
    }
  }

  lemma {:induction false} ClaimFirstStepAll(sys: Sys, item: Item)
    requires AllClaimFirst(sys)
    ensures AllClaimFirst(Step(sys, item))
  {
    hide ClaimsFirst, LocalStep;
    if item.rid in sys.reqs { ClaimsFirstStep(sys.store, sys.reqs[item.rid], item.input); }
  }

  lemma {:induction false} MarkersAtStart(start: Sys, items: seq<Item>)
    requires Initial(start)
    ensures var sys := State(start, items, 0); Markers(sys) && Apart(sys) && AllClaimFirst(sys)
  {
    hide Render, Get;
    forall k: Key | k.Idem? ensures !Get(start.store, Render(k)).Present? { NotPricing(k, start); }
  }

  /** Claims of one marker lie at least seven days apart, in every interleaving. */
  lemma {:induction false} MarkersInvariant(start: Sys, items: seq<Item>, n: nat)
    requires Initial(start) && n <= |items|
    ensures var sys := State(start, items, n); Markers(sys) && Apart(sys) && AllClaimFirst(sys)
  {
    hide *;
    if n == 0 {
      MarkersAtStart(start, items);
    } else {
      MarkersInvariant(start, items, n - 1);
      StateNext(start, items, n);
      MarkersStep(State(start, items, n - 1), items[n - 1]);
      ClaimFirstStepAll(State(start, items, n - 1), items[n - 1]);
    }
  }

  /** Any span of length `length` has at most one claim of a marker per started lifetime. */
  function ClaimsWithin(sys: Sys, key: string, from: int, to: int): set<nat> {
    set r | r in sys.reqs && Claimed(sys, r) && MarkerKey(sys.reqs[r]) == key && from <= ClaimTime(sys, r) <= to
  }

  /** Whole marker lifetimes in a span. */
  function Lifetimes(length: nat): nat {
    length / SEVEN_DAYS
  }

  lemma {:induction false} SpanBound(sys: Sys, key: string, from: int, length: nat)
    requires Apart(sys)
    ensures |ClaimsWithin(sys, key, from, from + length)| <= 1 + Lifetimes(length)
    decreases length
  {
    hide *;
    if length < SEVEN_DAYS {
      AtMostOneClaim(sys, key, from, from + length);
    } else {
      OneLifetimeLess(length);
      var first := ClaimsWithin(sys, key, from, from + SEVEN_DAYS - 1);
      var rest := ClaimsWithin(sys, key, from + SEVEN_DAYS, from + length);
      AtMostOneClaim(sys, key, from, from + SEVEN_DAYS - 1);
      SpanBound(sys, key, from + SEVEN_DAYS, length - SEVEN_DAYS);
      ClaimsSplit(sys, key, from, from + SEVEN_DAYS, from + length);
      Semaphore.SubsetCard(ClaimsWithin(sys, key, from, from + length), first + rest);
      assert from + SEVEN_DAYS + (length - SEVEN_DAYS) == from + length;
      UnionCard(first, rest);
    }
  }

  lemma {:induction false} OneLifetimeLess(length: nat)
    requires length >= SEVEN_DAYS
    ensures SEVEN_DAYS > 0 && Lifetimes(length) == 1 + Lifetimes(length - SEVEN_DAYS)
  {
  }

  lemma {:induction false} UnionCard(a: set<nat>, b: set<nat>)
    ensures |a + b| <= |a| + |b|
  {
    assert |a + b| + |a * b| == |a| + |b|;
  }

  lemma {:induction false} ClaimsSplit(sys: Sys, key: string, from: int, middle: int, to: int)
    ensures ClaimsWithin(sys, key, from, to) <=
            ClaimsWithin(sys, key, from, middle - 1) + ClaimsWithin(sys, key, middle, to)
  {
    hide MarkerKey;
  }

  lemma {:induction false} AtMostOneClaim(sys: Sys, key: string, from: int, to: int)
    requires Apart(sys) && to - from < SEVEN_DAYS
    ensures |ClaimsWithin(sys, key, from, to)| <= 1
  {
    hide MarkerKey;
    var claims := ClaimsWithin(sys, key, from, to);
    if claims != {} {
      var r :| r in claims;
      assert claims == {r};
    }
  }

  /** Successful claims of one (tenant, key) marker, in any interleaving with any faults: at
      most one per started seven days of any span. */
  lemma {:induction false} IdempotentClaims(start: Sys, items: seq<Item>, n: nat, key: string, from: int, length: nat)
    requires Initial(start) && n <= |items|
    ensures |ClaimsWithin(State(start, items, n), key, from, from + length)| <= 1 + Lifetimes(length)
  {
    hide *;
    MarkersInvariant(start, items, n);
    SpanBound(State(start, items, n), key, from, length);
  }

  /** A claim of this marker made less than seven days before `now`. */
  predicate ClaimedLately(sys: Sys, q: nat, key: string, now: int) {
    Claimed(sys, q) && MarkerKey(sys.reqs[q]) == key && now < ClaimTime(sys, q) + 604_800_000_000
  }

  lemma {:induction false} MarkerLivesIff(sys: Sys, k: Key, now: int)
    requires Markers(sys) && k.Idem?
    ensures (exists q :: ClaimedLately(sys, q, Render(k), now)) <==> Seen(Get(sys.store, Render(k)), now).Present?
  {
    hide Render, Get;
    var c := Get(sys.store, Render(k));
    if q :| ClaimedLately(sys, q, Render(k), now) {
      assert MarkerCovers(c, ClaimTime(sys, q));
    }
    if Seen(c, now).Present? {
      var q :| Claimed(sys, q) && MarkerKey(sys.reqs[q]) == Render(k) && MarkerOf(c, ClaimTime(sys, q));
      assert ClaimedLately(sys, q, Render(k), now);
    }
  }

  lemma {:induction false} ClaimAnswers(s: Store, r: Req, inp: Input, hold: Hold)
    requires r.phase == InView(Claiming, hold) && r.call.body.IngestBody? && inp.fault.NoFault?
    ensures var next, cell := LocalStep(s, r, inp).req, Get(s, MarkerKey(r));
            if Seen(cell, inp.now).Present? then next == r.(phase := LeaveView(hold, Accepted(true)))
            else next.phase == InView(Appending, hold) && next.marks.claimedAt == Some(inp.now)
  {
    hide Render;
  }

  /** The seven days, to the microsecond: in every run with any faults, and on any clock, a
      fault-free claim is a duplicate if and only if some claim of its marker was made less
      than seven days before; otherwise it is fresh and goes on to append. */
  lemma {:induction false} DuplicateIff(start: Sys, items: seq<Item>, n: nat, hold: Hold)
    requires Initial(start) && n < |items| && items[n].input.fault.NoFault?
    requires var sys, rid := State(start, items, n), items[n].rid;
             rid in sys.reqs && sys.reqs[rid].call.body.IngestBody? && sys.reqs[rid].phase == InView(Claiming, hold)
    ensures var sys, rid, now := State(start, items, n), items[n].rid, items[n].input.now;
            rid in State(start, items, n + 1).reqs
            && var next := State(start, items, n + 1).reqs[rid];
               if exists q :: ClaimedLately(sys, q, MarkerKey(sys.reqs[rid]), now)
               then next == sys.reqs[rid].(phase := LeaveView(hold, Accepted(true)))
               else next.phase == InView(Appending, hold) && next.marks.claimedAt == Some(now)
  {
    hide State, Initial, LocalStep, Markers, Apart, AllClaimFirst, Render, Seen;
    var sys, rid := State(start, items, n), items[n].rid;
    var r := sys.reqs[rid];
    MarkersInvariant(start, items, n);
    MarkerLivesIff(sys, Idem(r.call.tenant, r.call.body.idempotencyKey), items[n].input.now);
    ClaimAnswers(sys.store, r, items[n].input, hold);
    StateNext(start, items, n + 1);
  }

  // ---- The stream is exactly the appended claims ----

  function StreamOf(c: Cell): seq<StreamEntry> {
    if c.Present? && c.value.Stream? then c.value.entries else []
  }

  function Recorded(sys: Sys, tenant: string): seq<StreamEntry> {
    StreamOf(Get(sys.store, Render(Events(tenant))))
  }

  /** A request of the tenant wrote the stream entry at position `p`. */
  predicate Wrote(sys: Sys, tenant: string, r: nat, p: nat) {
    r in sys.reqs && sys.reqs[r].call.tenant == tenant && sys.reqs[r].call.body.IngestBody?
    && sys.reqs[r].marks.position == Some(p)
  }

  ghost predicate Written(sys: Sys, tenant: string, p: nat) {
    exists r: nat :: Wrote(sys, tenant, r, p)
  }

  function EntryOf(r: Req): StreamEntry
    requires r.call.body.IngestBody?
  {
    StreamEntry(r.call.body.idempotencyKey, r.call.body.payload)
  }

  ghost predicate StreamMatches(sys: Sys, tenant: string) {
    var c := Get(sys.store, Render(Events(tenant)));
    var entries := Recorded(sys, tenant);
    && (c.Present? ==> c.value.Stream? && c.expiry.Persistent?)
    && (forall r: nat, p: nat :: Wrote(sys, tenant, r, p) ==> p < |entries| && entries[p] == EntryOf(sys.reqs[r]))
    && (forall r: nat, q: nat, p: nat :: Wrote(sys, tenant, r, p) && Wrote(sys, tenant, q, p) ==> r == q)
    && (forall p: nat :: p < |entries| ==> Written(sys, tenant, p))
  }

  lemma {:induction false} EventsIssues(call: Request, phase: Phase, tenant: string)
    requires NextIssue(call, phase).Some?
    ensures var i := NextIssue(call, phase).value;
            && (Render(i.key) == Render(Events(tenant)) <==> (i.cmd.Append? || i.cmd.Length?) && call.tenant == tenant)
            && (i.cmd.Append? ==> call.body.IngestBody?
                                  && i.cmd == Append(StreamEntry(call.body.idempotencyKey, call.body.payload)))
  {
    var i := NextIssue(call, phase).value;
    if Render(i.key) == Render(Events(tenant)) { RenderInjective(i.key, Events(tenant)); }
  }

  /** The stream grows by the stepping request's entry, at the position it records. */
  lemma {:induction false} StreamStep(sys: Sys, item: Item, tenant: string)
    requires StreamMatches(sys, tenant) && AllClaimFirst(sys)
    ensures var after := Step(sys, item);
            var c := Get(after.store, Render(Events(tenant)));
            var entries, more := Recorded(sys, tenant), Recorded(after, tenant);
            (c.Present? ==> c.value.Stream? && c.expiry.Persistent?)
            && if more == entries then forall r: nat, p: nat :: Wrote(after, tenant, r, p) <==> Wrote(sys, tenant, r, p)
               else
                 item.rid in after.reqs && after.reqs[item.rid].call.body.IngestBody?
                 && more == entries + [EntryOf(after.reqs[item.rid])]
                 && forall r: nat, p: nat :: Wrote(after, tenant, r, p) <==>
                      Wrote(sys, tenant, r, p) || (r == item.rid && p == |entries|)
    ensures forall r: nat, p: nat :: Wrote(sys, tenant, r, p) && Wrote(Step(sys, item), tenant, r, p) ==>
              Step(sys, item).reqs[r].call == sys.reqs[r].call
  {
    hide Render, Get, Put, NextIssue, LocalStep, ClaimsFirst;
    StepEffect(sys, item);
    if item.rid in sys.reqs {
      var r := sys.reqs[item.rid];
      LocalStepEffect(sys.store, r, item.input);
      IngestMarksStep(sys.store, r, item.input);
      if Executed(sys, item).Some? {
        var e := Executed(sys, item).value;
        EventsIssues(r.call, r.phase, tenant);
        GetPut(sys.store, e.key, Exec(Get(sys.store, e.key), e.op.cmd, e.op.now).cell, Render(Events(tenant)));
      }
    }
  }

  lemma {:induction false} StreamMatchesStep(sys: Sys, item: Item, tenant: string)
    requires StreamMatches(sys, tenant) && AllClaimFirst(sys)
    ensures StreamMatches(Step(sys, item), tenant)
  {
    hide Step, Render, Get, ClaimsFirst, Recorded, Wrote;
    var after := Step(sys, item);
    StreamStep(sys, item, tenant);
    forall p: nat | p < |Recorded(after, tenant)| ensures Written(after, tenant, p) {
      if p < |Recorded(sys, tenant)| {
        assert Written(sys, tenant, p);
        var r :| Wrote(sys, tenant, r, p);
        assert Wrote(after, tenant, r, p);
      } else {
        assert Wrote(after, tenant, item.rid, p);
      }
    }
  }

  lemma {:induction false} StreamInvariant(start: Sys, items: seq<Item>, n: nat, tenant: string)
    requires Initial(start) && n <= |items|
    ensures StreamMatches(State(start, items, n), tenant)
  {
    hide *;
    if n == 0 {
      StreamAtStart(start, items, tenant);
    } else {
      StreamInvariant(start, items, n - 1, tenant);
      MarkersInvariant(start, items, n - 1);
      StateNext(start, items, n);
      StreamMatchesStep(State(start, items, n - 1), items[n - 1], tenant);
    }
  }

  lemma {:induction false} StreamAtStart(start: Sys, items: seq<Item>, tenant: string)
    requires Initial(start)
    ensures StreamMatches(State(start, items, 0), tenant)
  {
    hide Render;
    NotPricing(Events(tenant), start);
  }

  // ---- Conservation, and what a draft counts ----

  function ClaimsOf(sys: Sys, tenant: string): set<nat> {
    set r | r in sys.reqs && sys.reqs[r].call.tenant == tenant && Claimed(sys, r)
  }

  function WritersOf(sys: Sys, tenant: string): set<nat> {
    set r | r in sys.reqs && sys.reqs[r].call.tenant == tenant && Claimed(sys, r) && sys.reqs[r].marks.position.Some?
  }

  /** Claimed, about to append. */
  function PendingOf(sys: Sys, tenant: string): set<nat> {
    set r | r in sys.reqs && sys.reqs[r].call.tenant == tenant && Claimed(sys, r)
            && sys.reqs[r].phase.InView? && sys.reqs[r].phase.step.Appending?
  }

  /** Claimed but never appended: a crash or an error in the gap. */
  function LostOf(sys: Sys, tenant: string): set<nat> {
    set r | r in sys.reqs && sys.reqs[r].call.tenant == tenant && Claimed(sys, r)
            && sys.reqs[r].marks.position == None && !(sys.reqs[r].phase.InView? && sys.reqs[r].phase.step.Appending?)
  }

  ghost predicate WroteBelow(sys: Sys, tenant: string, r: nat, size: nat) {
    exists p: nat :: p < size && Wrote(sys, tenant, r, p)
  }

  lemma {:induction false} WroteBelowNext(sys: Sys, tenant: string, r: nat, size: nat)
    ensures WroteBelow(sys, tenant, r, size + 1) <==> WroteBelow(sys, tenant, r, size) || Wrote(sys, tenant, r, size)
    ensures !(WroteBelow(sys, tenant, r, size) && Wrote(sys, tenant, r, size))
  {
  }

  /** Writers and stream positions correspond one to one. */
  lemma {:induction false} WritersCount(sys: Sys, tenant: string, writers: set<nat>, size: nat)
    requires StreamMatches(sys, tenant) && size <= |Recorded(sys, tenant)|
    requires forall r: nat :: r in writers <==> WroteBelow(sys, tenant, r, size)
    ensures |writers| == size
    decreases size
  {
    if size == 0 {
      assert writers == {};
      return;
    }
    var last := size - 1;
    assert Written(sys, tenant, last);
    var r: nat :| Wrote(sys, tenant, r, last);
    assert forall q: nat :: Wrote(sys, tenant, q, last) ==> q == r;
    hide Recorded, Wrote, WroteBelow, StreamMatches;
    var rest := writers - {r};
    forall q: nat ensures q in rest <==> WroteBelow(sys, tenant, q, last) {
      WroteBelowNext(sys, tenant, q, last);
    }
    WroteBelowNext(sys, tenant, r, last);
    WritersCount(sys, tenant, rest, last);
    assert writers == rest + {r};
  }

  lemma {:induction false} WritersAreClaimed(sys: Sys, tenant: string)
    requires StreamMatches(sys, tenant) && AllClaimFirst(sys)
    ensures forall r: nat :: r in WritersOf(sys, tenant) <==> WroteBelow(sys, tenant, r, |Recorded(sys, tenant)|)
  {
    hide Recorded;
    forall r: nat ensures r in WritersOf(sys, tenant) <==> WroteBelow(sys, tenant, r, |Recorded(sys, tenant)|) {
      if r in WritersOf(sys, tenant) {
        var p := sys.reqs[r].marks.position.value;
        assert ClaimsFirst(sys.reqs[r]);
        assert Wrote(sys, tenant, r, p);
      }
    }
  }

  /** Conservation, in every state of every interleaving with any faults: a tenant's claims
      are its stream entries, its appends still pending, and its claims lost in the gap. */
  lemma {:induction false} IngestConservation(start: Sys, items: seq<Item>, n: nat, tenant: string)
    requires Initial(start) && n <= |items|
    ensures var sys := State(start, items, n);
            |ClaimsOf(sys, tenant)| == |Recorded(sys, tenant)| + |PendingOf(sys, tenant)| + |LostOf(sys, tenant)|
  {
    hide *;
    var sys := State(start, items, n);
    StreamInvariant(start, items, n, tenant);
    MarkersInvariant(start, items, n);
    WritersAreClaimed(sys, tenant);
    WritersCount(sys, tenant, WritersOf(sys, tenant), |Recorded(sys, tenant)|);
    ClaimsPartition(sys, tenant);
  }

  lemma {:induction false} ClaimsPartition(sys: Sys, tenant: string)
    requires AllClaimFirst(sys)
    ensures |ClaimsOf(sys, tenant)| == |WritersOf(sys, tenant)| + |PendingOf(sys, tenant)| + |LostOf(sys, tenant)|
  {
    PendingHaveNotWritten(sys, tenant);
    ClaimsCovered(sys, tenant);
    hide *;
    DisjointCard(WritersOf(sys, tenant), PendingOf(sys, tenant), LostOf(sys, tenant));
    assert ClaimsOf(sys, tenant) == WritersOf(sys, tenant) + PendingOf(sys, tenant) + LostOf(sys, tenant);
  }

  lemma {:induction false} ClaimsCovered(sys: Sys, tenant: string)
    ensures ClaimsOf(sys, tenant) <= WritersOf(sys, tenant) + PendingOf(sys, tenant) + LostOf(sys, tenant)
    ensures WritersOf(sys, tenant) + PendingOf(sys, tenant) + LostOf(sys, tenant) <= ClaimsOf(sys, tenant)
    ensures WritersOf(sys, tenant) !! LostOf(sys, tenant) && PendingOf(sys, tenant) !! LostOf(sys, tenant)
  {
    hide Claimed;
  }

  lemma {:induction false} PendingHaveNotWritten(sys: Sys, tenant: string)
    requires AllClaimFirst(sys)
    ensures WritersOf(sys, tenant) !! PendingOf(sys, tenant)
  {
    hide Claimed;
    forall r | r in PendingOf(sys, tenant) ensures r !in WritersOf(sys, tenant) { assert ClaimsFirst(sys.reqs[r]); }
  }

  lemma {:induction false} DisjointCard(a: set<nat>, b: set<nat>, c: set<nat>)
    requires a !! b && a !! c && b !! c
    ensures |a + b + c| == |a| + |b| + |c|
  {
    assert a * b == {} && (a + b) * c == {};
    assert |a + b| + |a * b| == |a| + |b|;
    assert |a + b + c| + |(a + b) * c| == |a + b| + |c|;
  }

  /** No event is counted twice: two stream entries of a tenant with the same idempotency key
      were claimed at least seven days apart, whatever was retried, lost or crashed. */
  lemma {:induction false} NoDoubleCount(start: Sys, items: seq<Item>, n: nat, tenant: string, p: nat, q: nat)
    requires Initial(start) && n <= |items|
    requires p < q < |Recorded(State(start, items, n), tenant)|
    requires var entries := Recorded(State(start, items, n), tenant);
             entries[p].idempotencyKey == entries[q].idempotencyKey
    ensures var sys := State(start, items, n);
            exists r: nat, w: nat ::
              Wrote(sys, tenant, r, p) && Wrote(sys, tenant, w, q) && Claimed(sys, r) && Claimed(sys, w)
              && (ClaimTime(sys, r) >= ClaimTime(sys, w) + SEVEN_DAYS
                  || ClaimTime(sys, w) >= ClaimTime(sys, r) + SEVEN_DAYS)
  {
    StreamInvariant(start, items, n, tenant);
    MarkersInvariant(start, items, n);
    hide State, Initial, Recorded;
    var sys := State(start, items, n);
    assert Written(sys, tenant, p) && Written(sys, tenant, q);
    var r: nat :| Wrote(sys, tenant, r, p);
    var w: nat :| Wrote(sys, tenant, w, q);
    assert ClaimsFirst(sys.reqs[r]) && ClaimsFirst(sys.reqs[w]);
    assert MarkerKey(sys.reqs[r]) == MarkerKey(sys.reqs[w]);
    assert Claimed(sys, r) && Claimed(sys, w) && r != w;
  }

  // ---- Runs shorter than a marker lifetime ----

  predicate ShortRun(items: seq<Item>) {
    forall i, j :: 0 <= i < |items| && 0 <= j < |items| ==> items[i].input.now < items[j].input.now + SEVEN_DAYS
  }

  /** Every claim was made in one of the scheduled steps. */
  ghost predicate ClaimsScheduled(sys: Sys, items: seq<Item>) {
    forall r :: Claimed(sys, r) ==> exists i :: 0 <= i < |items| && items[i].input.now == ClaimTime(sys, r)
  }

  // ---- Claims that are followed through ----

  /** Ingests never hold a slot, so a claimant never waits to release one. */
  predicate Unslotted(r: Req) {
    (r.marks.claimedAt.Some? ==> !IsHeavy(r.call.path))
    && match r.phase
       case Acquiring(_, _, _) => IsHeavy(r.call.path)
       case InView(step, hold) =>
         (hold.Unguarded? || IsHeavy(r.call.path)) && (step.Claiming? || step.Appending? ==> !IsHeavy(r.call.path))
       case Releasing(_, _) => IsHeavy(r.call.path)
       case _ => true
  }

  lemma {:induction false} UnslottedReceive(r: Req, acted: Option<Reply>, seen: Reply, inp: Input)
    requires Unslotted(r)
    ensures Unslotted(Req(r.call, Receive(r.call, r.phase, seen, inp), Record(r.phase, r.marks, acted, seen, inp.now)))
    ensures Unslotted(r.(phase := Advance(r.call, r.phase, inp)))
  {
    hide PriceOf, AmountFor, CustomerIn, AmountIn, PlanFor;
  }

  lemma {:induction false} UnslottedStep(s: Store, r: Req, inp: Input)
    requires Unslotted(r)
    ensures Unslotted(LocalStep(s, r, inp).req)
  {
    hide LocalStep, Receive, Record, Advance, IsHeavy;
    LocalStepMoves(s, r, inp);
    var l := LocalStep(s, r, inp);
    UnslottedReceive(r, ActedIn(l), SeenIn(l, inp), inp);
  }

  ghost predicate AllUnslotted(sys: Sys) {
    forall r :: r in sys.reqs ==> Unslotted(sys.reqs[r])
  }

  lemma {:induction false} UnslottedInvariant(start: Sys, items: seq<Item>, n: nat)
    requires Initial(start) && n <= |items|
    ensures AllUnslotted(State(start, items, n))
  {
    if n == 0 { return; }
    UnslottedInvariant(start, items, n - 1);
    var sys, item := State(start, items, n - 1), items[n - 1];
    hide LocalStep, Unslotted, State;
    StateNext(start, items, n);
    if item.rid in sys.reqs { UnslottedStep(sys.store, sys.reqs[item.rid], item.input); }
  }

  /** The claim loses no reply and the append meets no fault. */
  predicate GapHolds(phase: Phase, fault: Fault) {
    phase.InView? ==>
      (phase.step.Claiming? ==> !fault.ReplyLost?) && (phase.step.Appending? ==> fault.NoFault?)
  }

  /** That, for one request in the first `n` steps. Every other step of the run, of this and of
      all other requests, may fail or crash. */
  ghost predicate GapFree(start: Sys, items: seq<Item>, n: nat, q: nat)
    requires n <= |items|
  {
    forall k :: 0 <= k < n && items[k].rid == q && q in State(start, items, k).reqs ==>
      GapHolds(State(start, items, k).reqs[q].phase, items[k].input.fault)
  }

  /** A claim is followed through. */
  predicate Followed(sys: Sys, q: nat) {
    Claimed(sys, q) ==>
      var phase := sys.reqs[q].phase;
      (phase.InView? && phase.step.Appending?) || AnswerOf(phase) == Some(Accepted(false))
  }

  ghost predicate BehindDuplicate(sys: Sys, r: nat)
    requires r in sys.reqs && sys.reqs[r].call.body.IngestBody?
  {
    exists q :: Claimed(sys, q) && MarkerKey(sys.reqs[q]) == MarkerKey(sys.reqs[r])
  }

  /** Every duplicate answer has a claim behind it. */
  ghost predicate DuplicatesBehind(sys: Sys) {
    forall r :: r in sys.reqs && AnswerOf(sys.reqs[r].phase) == Some(Accepted(true)) ==>
      sys.reqs[r].call.body.IngestBody? && BehindDuplicate(sys, r)
  }

  lemma {:induction false} FollowStep(s: Store, r: Req, inp: Input)
    requires GapHolds(r.phase, inp.fault) && ClaimsFirst(r) && Unslotted(r)
    requires r.marks.claimedAt.Some? ==>
               (r.phase.InView? && r.phase.step.Appending?) || AnswerOf(r.phase) == Some(Accepted(false))
    ensures var l := LocalStep(s, r, inp);
            l.req.marks.claimedAt.Some? ==>
              || (l.req.phase.InView? && l.req.phase.step.Appending?)
              || AnswerOf(l.req.phase) == Some(Accepted(false))
              || (l.log != [] && l.log[0].op.cmd.Append? && !l.log[0].reply.EntryId?)
  {
    hide LocalStep, Exec, DraftFields, IssuedFields, LimitsOf, PlanFor, CostOf, IsHeavy, ShouldGuard, PriceOf,
         AmountFor, CustomerIn, AmountIn;
    LocalStepMoves(s, r, inp);
    LocalStepEffect(s, r, inp);
    if inp.fault.NoFault? { FaultFreeSees(s, r, inp); } else { FaultyClaims(s, r, inp); }
  }

  /** A claim needs a reply from Redis, and a worker that dies makes none. */
  lemma {:induction false} FaultyClaims(s: Store, r: Req, inp: Input)
    ensures var l := LocalStep(s, r, inp);
            inp.fault.Crash? || inp.fault.ErrorBefore? ==> l.log == []
    ensures r.phase.Finished? ==> LocalStep(s, r, inp).req == r
  {
    hide Exec, Render, Put, Get, Receive, Record, Advance, NextIssue;
  }

  lemma {:induction false} FaultFreeSees(s: Store, r: Req, inp: Input)
    requires inp.fault.NoFault?
    ensures var l := LocalStep(s, r, inp);
            (l.log == [] ==> l.req == r || l.req == r.(phase := Advance(r.call, r.phase, inp)))
            && (l.log != [] ==> SeenIn(l, inp) == l.log[0].reply)
  {
    hide Exec, Render, Put, Get, Receive, Record, Advance, NextIssue;
  }

  /** The stream is always there to append to. */
  lemma {:induction false} AppendsSucceed(sys: Sys, item: Item)
    requires item.rid in sys.reqs && StreamMatches(sys, sys.reqs[item.rid].call.tenant)
    ensures match Executed(sys, item)
            case None => true
            case Some(e) => e.op.cmd.Append? ==> e.reply.EntryId?
  {
    hide Step, Executed, NextIssue, Render, Get, Put;
    StepEffect(sys, item);
    if Executed(sys, item).Some? {
      var r := sys.reqs[item.rid];
      EventsIssues(r.call, r.phase, r.call.tenant);
    }
  }

  /** A marker found already there was set by some claim. */
  lemma {:induction false} FoundMarkerHasClaim(sys: Sys, item: Item)
    requires Markers(sys) && item.rid in sys.reqs
    ensures match Executed(sys, item)
            case None => true
            case Some(e) => e.op.cmd.SetNx? && e.reply == Flag(false) ==>
              sys.reqs[item.rid].call.body.IngestBody? && BehindDuplicate(sys, item.rid)
  {
    hide Step, Executed, NextIssue, Render, Get, Put, MarkerOf;
    StepEffect(sys, item);
    if Executed(sys, item).Some? {
      var e, r := Executed(sys, item).value, sys.reqs[item.rid];
      IdemIssues(r.call, r.phase, Idem("", ""));
      ClaimOnCell(Get(sys.store, e.key), e.op.now);
    }
  }

  lemma {:induction false} FollowedStep(sys: Sys, item: Item, q: nat)
    requires Followed(sys, q) && AllClaimFirst(sys) && AllUnslotted(sys)
    requires item.rid in sys.reqs ==> StreamMatches(sys, sys.reqs[item.rid].call.tenant)
    requires item.rid == q && q in sys.reqs ==> GapHolds(sys.reqs[q].phase, item.input.fault)
    ensures Followed(Step(sys, item), q)
  {
    if item.rid !in sys.reqs { return; }
    hide LocalStep, ClaimsFirst, Unslotted, StreamMatches, GapHolds;
    var r := sys.reqs[item.rid];
    LocalStepEffect(sys.store, r, item.input);
    AppendsSucceed(sys, item);
    if q == item.rid { FollowStep(sys.store, r, item.input); }
  }

  lemma {:induction false} DuplicatesBehindStep(sys: Sys, item: Item)
    requires DuplicatesBehind(sys) && Markers(sys) && AllClaimFirst(sys)
    ensures DuplicatesBehind(Step(sys, item))
  {
    if item.rid !in sys.reqs { return; }
    hide LocalStep, ClaimsFirst, Markers, MarkerKey;
    var after, r := Step(sys, item), sys.reqs[item.rid];
    LocalStepEffect(sys.store, r, item.input);
    FoundMarkerHasClaim(sys, item);
    forall q | q in after.reqs && AnswerOf(after.reqs[q].phase) == Some(Accepted(true))
      ensures after.reqs[q].call.body.IngestBody? && BehindDuplicate(after, q)
    {
      if q == item.rid && AnswerOf(r.phase) != Some(Accepted(true)) { DuplicateStep(sys.store, r, item.input); }
      BehindStays(sys, item, q);
    }
  }

  lemma {:induction false} BehindStays(sys: Sys, item: Item, r: nat)
    requires AllClaimFirst(sys) && r in sys.reqs && sys.reqs[r].call.body.IngestBody? && BehindDuplicate(sys, r)
    ensures r in Step(sys, item).reqs && Step(sys, item).reqs[r].call.body.IngestBody?
            && BehindDuplicate(Step(sys, item), r)
  {
    var q :| Claimed(sys, q) && MarkerKey(sys.reqs[q]) == MarkerKey(sys.reqs[r]);
    hide LocalStep, AllClaimFirst, Render;
    ClaimsStay(sys, item, q);
    if item.rid in sys.reqs { LocalStepEffect(sys.store, sys.reqs[item.rid], item.input); }
    assert Claimed(Step(sys, item), q);
  }

  lemma {:induction false} FollowedInvariant(start: Sys, items: seq<Item>, n: nat, q: nat)
    requires Initial(start) && n <= |items| && GapFree(start, items, n, q)
    ensures Followed(State(start, items, n), q)
  {
    hide State, Step, Initial, Followed, GapHolds, StreamMatches, Markers, Apart, AllClaimFirst, AllUnslotted;
    if n == 0 {
      FollowedAtStart(start, items, q);
    } else {
      var sys, item := State(start, items, n - 1), items[n - 1];
      FollowedInvariant(start, items, n - 1, q);
      MarkersInvariant(start, items, n - 1);
      UnslottedInvariant(start, items, n - 1);
      if item.rid in sys.reqs { StreamInvariant(start, items, n - 1, sys.reqs[item.rid].call.tenant); }
      StateNext(start, items, n);
      FollowedStep(sys, item, q);
    }
  }

  lemma {:induction false} FollowedAtStart(start: Sys, items: seq<Item>, q: nat)
    requires Initial(start)
    ensures Followed(State(start, items, 0), q) && DuplicatesBehind(State(start, items, 0))
  {
  }

  lemma {:induction false} DuplicatesBehindInvariant(start: Sys, items: seq<Item>, n: nat)
    requires Initial(start) && n <= |items|
    ensures DuplicatesBehind(State(start, items, n))
  {
    hide *;
    if n == 0 {
      FollowedAtStart(start, items, 0);
    } else {
      DuplicatesBehindInvariant(start, items, n - 1);
      MarkersInvariant(start, items, n - 1);
      StateNext(start, items, n);
      DuplicatesBehindStep(State(start, items, n - 1), items[n - 1]);
    }
  }

  lemma {:induction false} ClaimsScheduledInvariant(start: Sys, items: seq<Item>, n: nat)
    requires Initial(start) && n <= |items|
    ensures ClaimsScheduled(State(start, items, n), items)
  {
    if n == 0 { return; }
    ClaimsScheduledInvariant(start, items, n - 1);
    MarkersInvariant(start, items, n - 1);
    StateNext(start, items, n);
    hide State, Step, MarkerKey, Markers, Apart, AllClaimFirst, MarkerOf, MarkerCovers;
    var sys, item := State(start, items, n - 1), items[n - 1];
    var after := Step(sys, item);
    forall r | Claimed(after, r) ensures exists i :: 0 <= i < |items| && items[i].input.now == ClaimTime(after, r) {
      NewClaim(sys, item, r);
      if !Claimed(sys, r) { assert items[n - 1].input.now == ClaimTime(after, r); }
    }
  }

  /** The idempotency keys of a tenant's accepted ingests, first or duplicate. */
  function IngestedKeys(sys: Sys, tenant: string): set<string> {
    set r | r in sys.reqs && sys.reqs[r].call.tenant == tenant && sys.reqs[r].call.body.IngestBody?
            && AnswerOf(sys.reqs[r].phase).Some? && AnswerOf(sys.reqs[r].phase).value.Accepted?
      :: sys.reqs[r].call.body.idempotencyKey
  }

  function StreamKeys(entries: seq<StreamEntry>): set<string> {
    set p | 0 <= p < |entries| :: entries[p].idempotencyKey
  }

  /** Every claim of the tenant has been answered as a first event. */
  ghost predicate AllAnswered(sys: Sys, tenant: string) {
    forall q :: Claimed(sys, q) && sys.reqs[q].call.tenant == tenant ==>
      AnswerOf(sys.reqs[q].phase) == Some(Accepted(false))
  }

  lemma {:induction false} EntryWasIngested(sys: Sys, tenant: string, p: nat)
    requires StreamMatches(sys, tenant) && AllClaimFirst(sys) && AllAnswered(sys, tenant) && DuplicatesBehind(sys)
    requires p < |Recorded(sys, tenant)|
    ensures Recorded(sys, tenant)[p].idempotencyKey in IngestedKeys(sys, tenant)
  {
    hide Recorded;
    assert Written(sys, tenant, p);
    var r: nat :| Wrote(sys, tenant, r, p);
    assert ClaimsFirst(sys.reqs[r]);
    assert Claimed(sys, r);
  }

  lemma {:induction false} FirstAnswerIsRecorded(sys: Sys, tenant: string, r: nat)
    requires StreamMatches(sys, tenant) && AllClaimFirst(sys)
    requires r in sys.reqs && sys.reqs[r].call.tenant == tenant && AnswerOf(sys.reqs[r].phase) == Some(Accepted(false))
    ensures sys.reqs[r].call.body.IngestBody?
    ensures sys.reqs[r].call.body.idempotencyKey in StreamKeys(Recorded(sys, tenant))
  {
    hide Recorded;
    assert ClaimsFirst(sys.reqs[r]);
    var p := sys.reqs[r].marks.position.value;
    assert Wrote(sys, tenant, r, p);
  }

  lemma {:induction false} SameMarkerSameKey(a: Request, b: Request)
    requires a.body.IngestBody? && b.body.IngestBody?
    requires Render(Idem(a.tenant, a.body.idempotencyKey)) == Render(Idem(b.tenant, b.body.idempotencyKey))
    requires a.tenant == b.tenant || !Overlap(a.tenant, b.tenant)
    ensures a.tenant == b.tenant && a.body.idempotencyKey == b.body.idempotencyKey
  {
    hide Render;
    RenderInjective(Idem(a.tenant, a.body.idempotencyKey), Idem(b.tenant, b.body.idempotencyKey));
  }

  lemma {:induction false} IngestedIsRecorded(sys: Sys, tenant: string, r: nat)
    requires StreamMatches(sys, tenant) && AllClaimFirst(sys) && AllAnswered(sys, tenant) && DuplicatesBehind(sys)
    requires Separate(sys, tenant)
    requires r in sys.reqs && sys.reqs[r].call.tenant == tenant && sys.reqs[r].call.body.IngestBody?
    requires AnswerOf(sys.reqs[r].phase).Some? && AnswerOf(sys.reqs[r].phase).value.Accepted?
    ensures sys.reqs[r].call.body.idempotencyKey in StreamKeys(Recorded(sys, tenant))
  {
    hide StreamMatches, AllClaimFirst, Recorded, Overlap;
    if AnswerOf(sys.reqs[r].phase) == Some(Accepted(true)) {
      assert BehindDuplicate(sys, r);
      var q :| Claimed(sys, q) && MarkerKey(sys.reqs[q]) == MarkerKey(sys.reqs[r]);
      SameMarkerSameKey(sys.reqs[q].call, sys.reqs[r].call);
      FirstAnswerIsRecorded(sys, tenant, q);
    } else {
      FirstAnswerIsRecorded(sys, tenant, r);
    }
  }

  lemma {:induction false} RecordedAreIngested(sys: Sys, tenant: string)
    requires StreamMatches(sys, tenant) && AllClaimFirst(sys) && AllAnswered(sys, tenant) && DuplicatesBehind(sys)
    requires Separate(sys, tenant)
    ensures StreamKeys(Recorded(sys, tenant)) == IngestedKeys(sys, tenant)
  {
    hide StreamMatches, AllClaimFirst, Recorded, AllAnswered, DuplicatesBehind, Separate;
    forall k | k in StreamKeys(Recorded(sys, tenant)) ensures k in IngestedKeys(sys, tenant) {
      var p :| 0 <= p < |Recorded(sys, tenant)| && Recorded(sys, tenant)[p].idempotencyKey == k;
      EntryWasIngested(sys, tenant, p);
    }
    forall k | k in IngestedKeys(sys, tenant) ensures k in StreamKeys(Recorded(sys, tenant)) {
      var r :| r in sys.reqs && sys.reqs[r].call.tenant == tenant && sys.reqs[r].call.body.IngestBody?
               && AnswerOf(sys.reqs[r].phase).Some? && AnswerOf(sys.reqs[r].phase).value.Accepted?
               && sys.reqs[r].call.body.idempotencyKey == k;
      IngestedIsRecorded(sys, tenant, r);
    }
  }

  predicate DistinctKeys(entries: seq<StreamEntry>) {
    forall p, q :: 0 <= p < q < |entries| ==> entries[p].idempotencyKey != entries[q].idempotencyKey
  }

  lemma {:induction false} DistinctKeysCount(entries: seq<StreamEntry>)
    requires DistinctKeys(entries)
    ensures |StreamKeys(entries)| == |entries|
  {
    if entries == [] {
      assert StreamKeys(entries) == {};
    } else {
      var n := |entries| - 1;
      var init := entries[..n];
      DistinctKeysCount(init);
      var last := entries[n].idempotencyKey;
      assert last !in StreamKeys(init);
      assert StreamKeys(entries) == StreamKeys(init) + {last} by {
        forall k | k in StreamKeys(entries) ensures k in StreamKeys(init) + {last} {
          var p :| 0 <= p < |entries| && entries[p].idempotencyKey == k;
          if p < n { assert init[p].idempotencyKey == k; }
        }
        forall k | k in StreamKeys(init) ensures k in StreamKeys(entries) {
          var p :| 0 <= p < n && init[p].idempotencyKey == k;
          assert entries[p].idempotencyKey == k;
        }
        assert entries[n].idempotencyKey == last;
      }
    }
  }

  /** In a run shorter than seven days, with any faults, the stream has no key twice. */
  lemma {:induction false} ShortRunIsDistinct(start: Sys, items: seq<Item>, n: nat, tenant: string)
    requires Initial(start) && ShortRun(items) && n <= |items|
    ensures DistinctKeys(Recorded(State(start, items, n), tenant))
  {
    hide State, Initial, Recorded, MarkerKey;
    var sys := State(start, items, n);
    var entries := Recorded(sys, tenant);
    forall p, q | 0 <= p < q < |entries| ensures entries[p].idempotencyKey != entries[q].idempotencyKey {
      if entries[p].idempotencyKey == entries[q].idempotencyKey {
        NoDoubleCount(start, items, n, tenant, p, q);
        ClaimsScheduledInvariant(start, items, n);
        assert false;
      }
    }
  }

  lemma {:induction false} NonePending(start: Sys, items: seq<Item>, n: nat, tenant: string)
    requires Initial(start) && n <= |items| && PendingOf(State(start, items, n), tenant) == {}
    requires forall q :: q in start.reqs && start.reqs[q].call.tenant == tenant ==> GapFree(start, items, n, q)
    ensures AllAnswered(State(start, items, n), tenant)
  {
    hide State, Initial, GapFree;
    var sys := State(start, items, n);
    CallsAreConstant(start, items, n);
    forall q | Claimed(sys, q) && sys.reqs[q].call.tenant == tenant
      ensures AnswerOf(sys.reqs[q].phase) == Some(Accepted(false))
    {
      FollowedInvariant(start, items, n, q);
      assert q !in PendingOf(sys, tenant);
    }
  }

  /** Ingest-to-invoice: in a run under seven days, when no append of the tenant is pending and
      none of its claims and appends was hit by a fault, the count a calculation reads for a
      draft is the number of distinct keys ingested. Whatever else fails or crashes, of this
      tenant or of others, does not matter. */
  lemma {:induction false} EventCountIsDistinctKeys(start: Sys, items: seq<Item>, n: nat, tenant: string, hold: Hold)
    requires Initial(start) && ShortRun(items) && n < |items| && items[n].input.fault.NoFault?
    requires forall q :: q in start.reqs && start.reqs[q].call.tenant == tenant ==> GapFree(start, items, n, q)
    requires var sys := State(start, items, n);
             && Separate(sys, tenant) && PendingOf(sys, tenant) == {}
             && items[n].rid in sys.reqs && sys.reqs[items[n].rid].call.tenant == tenant
             && sys.reqs[items[n].rid].call.body.CalculateBody?
             && sys.reqs[items[n].rid].phase == InView(Counting, hold)
    ensures var sys := State(start, items, n);
            State(start, items, n + 1).reqs[items[n].rid].phase == InView(LookingUp(|IngestedKeys(sys, tenant)|), hold)
  {
    hide State, Initial, ShortRun, GapFree, PendingOf, Separate, IngestedKeys, Recorded, StreamKeys, AllAnswered;
    var sys := State(start, items, n);
    StreamInvariant(start, items, n, tenant);
    MarkersInvariant(start, items, n);
    NonePending(start, items, n, tenant);
    DuplicatesBehindInvariant(start, items, n);
    RecordedAreIngested(sys, tenant);
    ShortRunIsDistinct(start, items, n, tenant);
    DistinctKeysCount(Recorded(sys, tenant));
    StateNext(start, items, n + 1);
    CountingReadsLength(sys, items[n], tenant, hold);
  }

  lemma {:induction false} CountingReadsLength(sys: Sys, item: Item, tenant: string, hold: Hold)
    requires StreamMatches(sys, tenant) && item.input.fault.NoFault?
    requires item.rid in sys.reqs && sys.reqs[item.rid].call.tenant == tenant
    requires sys.reqs[item.rid].call.body.CalculateBody? && sys.reqs[item.rid].phase == InView(Counting, hold)
    ensures Step(sys, item).reqs[item.rid].phase == InView(LookingUp(|Recorded(sys, tenant)|), hold)
  {
    hide Render;
  }

  /** In any run under seven days at most one request per key is told it came first. */
  lemma {:induction false} OnlyOneFirst(start: Sys, items: seq<Item>, n: nat, r: nat, q: nat)
    requires Initial(start) && ShortRun(items) && n <= |items|
    requires var sys := State(start, items, n);
             && r in sys.reqs && q in sys.reqs
             && sys.reqs[r].call.body.IngestBody? && sys.reqs[q].call.body.IngestBody?
             && MarkerKey(sys.reqs[r]) == MarkerKey(sys.reqs[q])
             && AnswerOf(sys.reqs[r].phase) == Some(Accepted(false))
             && AnswerOf(sys.reqs[q].phase) == Some(Accepted(false))
    ensures r == q
  {
    var sys := State(start, items, n);
    MarkersInvariant(start, items, n);
    ClaimsScheduledInvariant(start, items, n);
    hide State, Initial, MarkerKey;
    assert ClaimsFirst(sys.reqs[r]) && ClaimsFirst(sys.reqs[q]);
    assert Claimed(sys, r) && Claimed(sys, q);
  }

  /** The request that claimed this marker is about to append. */
  ghost predicate AppendPending(sys: Sys, key: string) {
    exists q :: Claimed(sys, q) && MarkerKey(sys.reqs[q]) == key
                && sys.reqs[q].phase.InView? && sys.reqs[q].phase.step.Appending?
  }

  /** A request for this marker. */
  predicate Wants(sys: Sys, q: nat, key: string) {
    q in sys.reqs && sys.reqs[q].call.body.IngestBody? && MarkerKey(sys.reqs[q]) == key
  }

  /** In a run under seven days, exactly one request per key is told it came first, as soon as
      any request with that key has been answered and its own append is not pending, if no
      claim or append for that key was hit by a fault: however many others are in flight, and
      whatever fails or crashes elsewhere. */
  lemma {:induction false} ExactlyOneFirst(start: Sys, items: seq<Item>, n: nat, r: nat)
    requires Initial(start) && ShortRun(items) && n <= |items|
    requires var sys := State(start, items, n);
             && r in sys.reqs && sys.reqs[r].call.body.IngestBody? && !AppendPending(sys, MarkerKey(sys.reqs[r]))
             && AnswerOf(sys.reqs[r].phase).Some? && AnswerOf(sys.reqs[r].phase).value.Accepted?
             && forall q :: Wants(sys, q, MarkerKey(sys.reqs[r])) ==> GapFree(start, items, n, q)
    ensures var sys := State(start, items, n);
            (exists q :: SaidFirst(sys, q, MarkerKey(sys.reqs[r])))
            && forall p, q :: SaidFirst(sys, p, MarkerKey(sys.reqs[r])) && SaidFirst(sys, q, MarkerKey(sys.reqs[r])) ==>
                 p == q
  {
    var sys := State(start, items, n);
    DuplicatesBehindInvariant(start, items, n);
    hide State, Initial, ShortRun, MarkerKey, GapFree;
    if AnswerOf(sys.reqs[r].phase) == Some(Accepted(true)) {
      assert BehindDuplicate(sys, r);
      var q :| Claimed(sys, q) && MarkerKey(sys.reqs[q]) == MarkerKey(sys.reqs[r]);
      assert Wants(sys, q, MarkerKey(sys.reqs[r]));
      FollowedInvariant(start, items, n, q);
      assert SaidFirst(sys, q, MarkerKey(sys.reqs[r]));
    } else {
      assert SaidFirst(sys, r, MarkerKey(sys.reqs[r]));
    }
    forall p, q | SaidFirst(sys, p, MarkerKey(sys.reqs[r])) && SaidFirst(sys, q, MarkerKey(sys.reqs[r]))
      ensures p == q
    {
      OnlyOneFirst(start, items, n, p, q);
    }
  }

  predicate SaidFirst(sys: Sys, q: nat, key: string) {
    q in sys.reqs && sys.reqs[q].call.body.IngestBody? && MarkerKey(sys.reqs[q]) == key
    && AnswerOf(sys.reqs[q].phase) == Some(Accepted(false))
  }

  // ---- Exactly when the count is right ----

  function KeysOf(sys: Sys, claims: set<nat>): set<string> {
    set r | r in claims && Claimed(sys, r) :: sys.reqs[r].call.body.idempotencyKey
  }

  /** The distinct idempotency keys a tenant's requests have claimed. */
  function ClaimedKeys(sys: Sys, tenant: string): set<string> {
    KeysOf(sys, ClaimsOf(sys, tenant))
  }

  predicate DistinctClaims(sys: Sys, claims: set<nat>) {
    forall r, q :: r in claims && q in claims && r != q && Claimed(sys, r) && Claimed(sys, q) ==>
      sys.reqs[r].call.body.idempotencyKey != sys.reqs[q].call.body.idempotencyKey
  }

  lemma {:induction false} KeysOfClaims(sys: Sys, claims: set<nat>)
    requires (forall r :: r in claims ==> Claimed(sys, r)) && DistinctClaims(sys, claims)
    ensures |KeysOf(sys, claims)| == |claims|
  {
    hide Claimed;
    if claims == {} {
      assert KeysOf(sys, claims) == {};
    } else {
      var r :| r in claims;
      KeysOfClaims(sys, claims - {r});
      assert Claimed(sys, r);
      OneMoreKey(sys, claims, r);
    }
  }

  lemma {:induction false} OneMoreKey(sys: Sys, claims: set<nat>, r: nat)
    requires r in claims && Claimed(sys, r) && DistinctClaims(sys, claims)
    ensures var key := sys.reqs[r].call.body.idempotencyKey;
            KeysOf(sys, claims) == KeysOf(sys, claims - {r}) + {key} && key !in KeysOf(sys, claims - {r})
  {
  }

  lemma {:induction false} SameKeyApart(sys: Sys, r: nat, q: nat)
    requires Apart(sys) && Claimed(sys, r) && Claimed(sys, q) && r != q
             && sys.reqs[r].call.tenant == sys.reqs[q].call.tenant
    requires sys.reqs[r].call.body.idempotencyKey == sys.reqs[q].call.body.idempotencyKey
    ensures ClaimTime(sys, r) >= ClaimTime(sys, q) + SEVEN_DAYS || ClaimTime(sys, q) >= ClaimTime(sys, r) + SEVEN_DAYS
  {
    hide Render;
    assert MarkerKey(sys.reqs[r]) == MarkerKey(sys.reqs[q]);
  }

  lemma {:induction false} ClaimsAreDistinct(start: Sys, items: seq<Item>, n: nat, tenant: string)
    requires Initial(start) && ShortRun(items) && n <= |items|
    ensures var sys := State(start, items, n); |ClaimedKeys(sys, tenant)| == |ClaimsOf(sys, tenant)|
  {
    var sys := State(start, items, n);
    MarkersInvariant(start, items, n);
    ClaimsScheduledInvariant(start, items, n);
    hide State, Initial, Markers, AllClaimFirst, Apart, KeysOf;
    forall r, q | r in ClaimsOf(sys, tenant) && q in ClaimsOf(sys, tenant) && r != q
      ensures sys.reqs[r].call.body.idempotencyKey != sys.reqs[q].call.body.idempotencyKey
    {
      if sys.reqs[r].call.body.idempotencyKey == sys.reqs[q].call.body.idempotencyKey { SameKeyApart(sys, r, q); }
    }
    KeysOfClaims(sys, ClaimsOf(sys, tenant));
  }

  /** In any run under seven days, with any faults, the count a calculation reads is never more
      than the distinct keys claimed, and equals it if and only if no append is pending and
      none was lost in the gap between claim and append. */
  lemma {:induction false} CountIsRightIff(start: Sys, items: seq<Item>, n: nat, tenant: string)
    requires Initial(start) && ShortRun(items) && n <= |items|
    ensures var sys := State(start, items, n);
            && |Recorded(sys, tenant)| <= |ClaimedKeys(sys, tenant)|
            && (|Recorded(sys, tenant)| == |ClaimedKeys(sys, tenant)| <==>
                PendingOf(sys, tenant) == {} && LostOf(sys, tenant) == {})
  {
    hide *;
    IngestConservation(start, items, n, tenant);
    ClaimsAreDistinct(start, items, n, tenant);
    var sys := State(start, items, n);
    assert |PendingOf(sys, tenant)| == 0 <==> PendingOf(sys, tenant) == {};
    assert |LostOf(sys, tenant)| == 0 <==> LostOf(sys, tenant) == {};
  }
}
