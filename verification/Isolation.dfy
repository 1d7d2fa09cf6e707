/** Tenant non-interference: what other tenants do cannot be seen, unless their ids extend
    one another across a colon. */
module Isolation {
  import TP = TenantPlan
  import opened KeySchema
  import opened RedisStore
  import opened Program
  import opened Platform
  import opened Passage

  predicate Owned(start: Sys, item: Item, tenant: string) {
    item.rid in start.reqs && start.reqs[item.rid].call.tenant == tenant
  }

  /** The steps of one tenant's requests among the first `n`. */
  function Mine(start: Sys, items: seq<Item>, n: nat, tenant: string): seq<Item>
    requires n <= |items|
  {
    if n == 0 then []
    else Mine(start, items, n - 1, tenant) + if Owned(start, items[n - 1], tenant) then [items[n - 1]] else []
  }

  function MineLog(log: seq<LogEntry>, tenant: string): seq<LogEntry> {
    if log == [] then []
    else MineLog(log[..|log| - 1], tenant) + if log[|log| - 1].call.tenant == tenant then [log[|log| - 1]] else []
  }

  ghost predicate SameRequests(a: Sys, b: Sys, tenant: string) {
    forall r :: r in a.reqs && a.reqs[r].call.tenant == tenant ==> r in b.reqs && a.reqs[r] == b.reqs[r]
  }

  ghost predicate SameCells(a: Store, b: Store, tenant: string) {
    forall k: Key :: k.tenant == tenant ==> Get(a, Render(k)) == Get(b, Render(k))
  }

  ghost predicate SameView(a: Sys, b: Sys, tenant: string) {
    SameRequests(a, b, tenant) && SameCells(a.store, b.store, tenant) && MineLog(a.log, tenant) == b.log
  }

  lemma {:induction false} MineLogSnoc(log: seq<LogEntry>, e: LogEntry, tenant: string)
    ensures MineLog(log + [e], tenant)
            == if e.call.tenant == tenant then MineLog(log, tenant) + [e] else MineLog(log, tenant)
  {
    assert (log + [e])[..|log|] == log;
  }

  /** A step depends on the store only through the cell it addresses. */
  lemma {:induction false} LocalStepDepends(s: Store, t: Store, r: Req, inp: Input)
    requires var i := NextIssue(r.call, r.phase); i.Some? ==> Get(s, Render(i.value.key)) == Get(t, Render(i.value.key))
    ensures LocalStep(s, r, inp).req == LocalStep(t, r, inp).req
    ensures LocalStep(s, r, inp).log == LocalStep(t, r, inp).log
  {
    hide Exec, Receive, Record, Advance, Render;
  }

  lemma {:induction false} PutSame(a: Store, b: Store, key: string, c: Cell, tenant: string)
    requires SameCells(a, b, tenant)
    ensures SameCells(Put(a, key, c), Put(b, key, c), tenant)
  {
    hide Render, Put;
    forall k: Key | k.tenant == tenant ensures Get(Put(a, key, c), Render(k)) == Get(Put(b, key, c), Render(k)) {
      GetPut(a, key, c, Render(k));
      GetPut(b, key, c, Render(k));
    }
  }

  lemma {:induction false} PutForeign(a: Store, b: Store, key: Key, c: Cell, tenant: string)
    requires SameCells(a, b, tenant) && key.tenant != tenant && !Overlap(key.tenant, tenant)
    ensures SameCells(Put(a, Render(key), c), b, tenant)
  {
    hide Render, Put, Get;
    forall k: Key | k.tenant == tenant ensures Get(Put(a, Render(key), c), Render(k)) == Get(b, Render(k)) {
      GetPut(a, Render(key), c, Render(k));
      if Render(k) == Render(key) { RenderInjective(key, k); }
    }
  }

  lemma {:induction false} OwnStep(a: Sys, b: Sys, item: Item, tenant: string)
    requires SameView(a, b, tenant) && item.rid in a.reqs && a.reqs[item.rid].call.tenant == tenant
    ensures SameView(Step(a, item), Step(b, item), tenant)
  {
    hide LocalStep, NextIssue, Render, Get, Put, Exec, MineLog;
    var r := a.reqs[item.rid];
    OwnKeysOnly(r.call, r.phase);
    LocalStepDepends(a.store, b.store, r, item.input);
    LocalStepEffect(a.store, r, item.input);
    LocalStepEffect(b.store, r, item.input);
    var l, m := LocalStep(a.store, r, item.input), LocalStep(b.store, r, item.input);
    if l.log == [] {
      assert a.log + l.log == a.log && b.log + m.log == b.log;
    } else {
      var e := l.log[0];
      assert l.log == [e];
      MineLogSnoc(a.log, e, tenant);
      PutSame(a.store, b.store, e.key, Exec(Get(a.store, e.key), e.op.cmd, e.op.now).cell, tenant);
    }
  }

  lemma {:induction false} ForeignStep(a: Sys, b: Sys, item: Item, tenant: string)
    requires SameView(a, b, tenant)
    requires item.rid in a.reqs ==>
               a.reqs[item.rid].call.tenant != tenant && !Overlap(a.reqs[item.rid].call.tenant, tenant)
    ensures SameView(Step(a, item), b, tenant)
  {
    hide LocalStep, NextIssue, Render, Get, Put, Exec, MineLog, Overlap;
    if item.rid !in a.reqs { return; }
    var r := a.reqs[item.rid];
    OwnKeysOnly(r.call, r.phase);
    LocalStepEffect(a.store, r, item.input);
    var l := LocalStep(a.store, r, item.input);
    if l.log == [] {
      assert a.log + l.log == a.log;
    } else {
      var e := l.log[0];
      assert l.log == [e];
      MineLogSnoc(a.log, e, tenant);
      PutForeign(a.store, b.store, NextIssue(r.call, r.phase).value.key,
                 Exec(Get(a.store, e.key), e.op.cmd, e.op.now).cell, tenant);
    }
  }

  lemma {:induction false} StateOfPrefix(start: Sys, items: seq<Item>, more: seq<Item>, n: nat)
    requires n <= |items|
    ensures State(start, items + more, n) == State(start, items, n)
  {
    hide Step;
    if n > 0 { StateOfPrefix(start, items, more, n - 1); }
  }

  /** Deleting every step of the other tenants from any interleaved run, faults, crashes and
      expiries included, leaves this tenant's requests, cells and command replies unchanged. */
  lemma {:induction false} NonInterference(start: Sys, items: seq<Item>, n: nat, tenant: string)
    requires start.log == [] && Separate(start, tenant) && n <= |items|
    ensures var mine := Mine(start, items, n, tenant);
            SameView(State(start, items, n), State(start, mine, |mine|), tenant)
  {
    hide Step, LocalStep, SameView, Overlap;
    if n == 0 {
      SameViewAtStart(start, tenant);
      return;
    }
    NonInterference(start, items, n - 1, tenant);
    var item, before := items[n - 1], Mine(start, items, n - 1, tenant);
    var a, b := State(start, items, n - 1), State(start, before, |before|);
    CallsAreConstant(start, items, n - 1);
    if Owned(start, item, tenant) {
      OwnStep(a, b, item, tenant);
      StateOfPrefix(start, before, [item], |before|);
    } else {
      ForeignStep(a, b, item, tenant);
      assert before + [] == before;
    }
  }

  lemma {:induction false} SameViewAtStart(start: Sys, tenant: string)
    requires start.log == []
    ensures SameView(start, start, tenant)
  {
  }

  /** Colon-free tenant ids are always separate. */
  lemma {:induction false} ColonFreeTenantsAreSeparate(start: Sys, tenant: string)
    requires ColonFree(tenant) && forall r :: r in start.reqs ==> ColonFree(start.reqs[r].call.tenant)
    ensures Separate(start, tenant)
  {
    forall r | r in start.reqs && start.reqs[r].call.tenant != tenant
      ensures !Overlap(start.reqs[r].call.tenant, tenant)
    {
      KeySpacesMeetIff(start.reqs[r].call.tenant, tenant);
    }
  }

  // ---- The condition is exact ----

  function Ingest(tenant: string, key: string): Request {
    Request(tenant, TP.INGEST, IngestBody(key, map[]))
  }

  const NOW := Input(0, NoFault, 0, "")

  /** An ingest on its way to its claim touches only its own bucket. */
  lemma {:induction false} ReachesClaim(sys: Sys, rid: nat, tenant: string, key: string)
    requires tenant != "" && rid in sys.reqs && sys.reqs[rid] == Arrive(Ingest(tenant, key))
    requires Get(sys.store, Render(RateLimit(tenant))) == Absent
    ensures var item := Item(rid, NOW);
            var after := Step(Step(Step(sys, item), item), item);
            && after.reqs == sys.reqs[rid := Req(Ingest(tenant, key), InView(Claiming, Unguarded), NO_MARKS)]
            && forall k: Key :: Render(k) != Render(RateLimit(tenant)) ==>
                 Get(after.store, Render(k)) == Get(sys.store, Render(k))
  {
    hide LocalStep, Render, Get;
    var call := Ingest(tenant, key);
    RatePasses(sys.store, call, NOW);
    var store := LocalStep(sys.store, Arrive(call), NOW).store;
    NoSlotNeeded(store, call, NOW);
    EntersView(store, Req(call, InView(Entering, Unguarded), NO_MARKS), NOW);
    forall k: Key | Render(k) != Render(RateLimit(tenant)) ensures Get(store, Render(k)) == Get(sys.store, Render(k)) {
      RateKeyFirst(call);
      OthersUntouched(sys.store, Arrive(call), NOW, k);
    }
  }

  lemma {:induction false} RateKeyFirst(call: Request)
    ensures NextIssue(call, AtRateGate).Some? ==> NextIssue(call, AtRateGate).value.key == RateLimit(call.tenant)
  {
  }

  lemma {:induction false} ClaimStep(sys: Sys, rid: nat, tenant: string, key: string)
    requires rid in sys.reqs && sys.reqs[rid] == Req(Ingest(tenant, key), InView(Claiming, Unguarded), NO_MARKS)
    ensures var marker, after := Render(Idem(tenant, key)), Step(sys, Item(rid, NOW));
            && after.reqs.Keys == sys.reqs.Keys
            && (forall q :: q in sys.reqs && q != rid ==> after.reqs[q] == sys.reqs[q])
            && (forall k: Key :: Render(k) != marker ==> Get(after.store, Render(k)) == Get(sys.store, Render(k)))
            && (Get(sys.store, marker) == Absent ==>
                  after.reqs[rid].phase == InView(Appending, Unguarded)
                  && Get(after.store, marker) == Present(Marker, At(IDEMPOTENCY_TTL)))
            && (Get(sys.store, marker) == Present(Marker, At(IDEMPOTENCY_TTL)) ==>
                  after.reqs[rid].phase == Finished(Accepted(true)))
  {
    hide Render;
  }

  lemma {:induction false} MineSplit(start: Sys, items: seq<Item>, m: nat, n: nat, tenant: string)
    requires m <= n <= |items|
    requires forall i :: 0 <= i < m ==> !Owned(start, items[i], tenant)
    requires forall i :: m <= i < n ==> Owned(start, items[i], tenant)
    ensures Mine(start, items, n, tenant) == items[m..n]
  {
    if n > m {
      MineSplit(start, items, m, n - 1, tenant);
    } else if n > 0 {
      MineSplit(start, items, m - 1, n - 1, tenant);
    }
  }

  /** Request 1 up to its claim, then request 0 up to its claim. */
  function OneThenOther(): seq<Item> {
    var own, other := Item(0, NOW), Item(1, NOW);
    [other, other, other, other, own, own, own, own]
  }

  function TwoIngests(a: string, key: string, b: string, other: string): Sys {
    Sys(map[], map[0 := Arrive(Ingest(a, key)), 1 := Arrive(Ingest(b, other))], [])
  }

  function FourTimes(item: Item): seq<Item> {
    [item, item, item, item]
  }

  /** Alone, the ingest claims its marker. */
  lemma {:induction false} AloneClaims(a: string, key: string, b: string, other: string)
    requires a != ""
    ensures var sys := State(TwoIngests(a, key, b, other), FourTimes(Item(0, NOW)), 4);
            0 in sys.reqs && sys.reqs[0].phase == InView(Appending, Unguarded)
  {
    hide State, Step, Render;
    var start, items := TwoIngests(a, key, b, other), FourTimes(Item(0, NOW));
    StateAtZero(start, items);
    ThreeSteps(start, items, 0);
    ReachesClaim(start, 0, a, key);
    NotOneKey(Idem(a, key), RateLimit(a));
    StateNext(start, items, 4);
    ClaimStep(State(start, items, 3), 0, a, key);
  }

  lemma {:induction false} StateAtZero(start: Sys, items: seq<Item>)
    ensures State(start, items, 0) == start
  {
  }

  /** After another tenant's ingest under the same Redis key, the same ingest is a duplicate. */
  lemma {:induction false} TogetherIsDuplicate(a: string, key: string, b: string, other: string)
    requires a != "" && b != "" && a != b && Render(Idem(a, key)) == Render(Idem(b, other))
    ensures var sys := State(TwoIngests(a, key, b, other), OneThenOther(), 8);
            0 in sys.reqs && sys.reqs[0].phase == Finished(Accepted(true))
  {
    hide State, Step, Render;
    var start, items := TwoIngests(a, key, b, other), OneThenOther();
    StateAtZero(start, items);
    ThreeSteps(start, items, 0);
    ReachesClaim(start, 1, b, other);
    NotOneKey(Idem(b, other), RateLimit(b));
    NotOneKey(Idem(b, other), RateLimit(a));
    NotOneKey(RateLimit(a), RateLimit(b));
    StateNext(start, items, 4);
    ClaimStep(State(start, items, 3), 1, b, other);
    ThreeSteps(start, items, 4);
    ReachesClaim(State(start, items, 4), 0, a, key);
    NotOneKey(Idem(a, key), RateLimit(a));
    StateNext(start, items, 8);
    ClaimStep(State(start, items, 7), 0, a, key);
  }

  /** Overlapping tenants have ingests with one marker. */
  lemma {:induction false} OverlapSharesMarker(a: string, b: string) returns (key: string, other: string)
    requires Overlap(a, b)
    ensures Render(Idem(a, key)) == Render(Idem(b, other))
  {
    if a + ":" <= b {
      var rest := b[|a| + 1..];
      key, other := rest + ":", "";
      assert b == a + ":" + rest;
      assert a + ":" + (rest + ":") == b + ":" + "";
    } else {
      var rest := a[|b| + 1..];
      key, other := "", rest + ":";
      assert a == b + ":" + rest;
      assert b + ":" + (rest + ":") == a + ":" + "";
    }
  }

  ghost predicate TwoTenants(start: Sys, a: string, b: string) {
    Initial(start) && forall r :: r in start.reqs ==> start.reqs[r].call.tenant == a || start.reqs[r].call.tenant == b
  }

  /** Tenant `tenant` cannot tell the run from one without the others' steps. */
  ghost predicate Unseen(start: Sys, items: seq<Item>, n: nat, tenant: string)
    requires n <= |items|
  {
    var mine := Mine(start, items, n, tenant);
    SameView(State(start, items, n), State(start, mine, |mine|), tenant)
  }

  lemma {:induction false} MineOfTwo(a: string, key: string, b: string, other: string)
    requires a != b
    ensures Mine(TwoIngests(a, key, b, other), OneThenOther(), 8, a) == FourTimes(Item(0, NOW))
    ensures TwoTenants(TwoIngests(a, key, b, other), a, b)
  {
    MineSplit(TwoIngests(a, key, b, other), OneThenOther(), 4, 8, a);
    assert OneThenOther()[4..8] == FourTimes(Item(0, NOW));
  }

  lemma {:induction false} TellsApart(x: Sys, y: Sys, r: nat, tenant: string)
    requires r in x.reqs && r in y.reqs && x.reqs[r].call.tenant == tenant && x.reqs[r].phase != y.reqs[r].phase
    ensures !SameView(x, y, tenant)
  {
    hide SameCells, MineLog;
  }

  lemma {:induction false} OverlapInterferes(a: string, b: string)
    requires a != "" && b != "" && a != b && Overlap(a, b)
    ensures exists start: Sys, items: seq<Item>, n: nat ::
              TwoTenants(start, a, b) && n <= |items| && !Unseen(start, items, n, a)
  {
    var key, other := OverlapSharesMarker(a, b);
    var start, items := TwoIngests(a, key, b, other), OneThenOther();
    hide State, Mine, Render, Overlap, SameView;
    TogetherIsDuplicate(a, key, b, other);
    AloneClaims(a, key, b, other);
    MineOfTwo(a, key, b, other);
    CallsAreConstant(start, items, 8);
    TellsApart(State(start, items, 8), State(start, FourTimes(Item(0, NOW)), 4), 0, a);
    assert !Unseen(start, items, 8, a);
  }

  /** For two tenants: no run of requests of both ever shows one the other, if and only if
      neither id is the other extended across a colon. */
  lemma {:induction false} InterferenceIff(a: string, b: string)
    requires a != "" && b != "" && a != b
    ensures (forall start: Sys, items: seq<Item>, n: nat | TwoTenants(start, a, b) && n <= |items| ::
               Unseen(start, items, n, a))
            <==> !Overlap(a, b)
  {
    if Overlap(a, b) {
      OverlapInterferes(a, b);
    } else {
      forall start: Sys, items: seq<Item>, n: nat | TwoTenants(start, a, b) && n <= |items|
        ensures Unseen(start, items, n, a)
      {
        NonInterference(start, items, n, a);
      }
    }
  }
}
