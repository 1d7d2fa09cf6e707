/** Plan catalog and endpoint costs: `billing/domain/tenant_plan.py` and the cost
    table of `billing/application/rate_limiter.py`. */
module TenantPlan {

  datatype TierLimits = TierLimits(requestsPerSecond: nat, burst: nat, maxConcurrency: nat)

  const PLANS: map<string, TierLimits> := map[
    "enterprise" := TierLimits(500, 1000, 20),
    "standard" := TierLimits(100, 200, 10),
    "small" := TierLimits(20, 50, 3),
    "backfill" := TierLimits(50, 100, 5),
    "default" := TierLimits(100, 200, 5)
  ]

  const TENANT_PLANS: map<string, string> := map[
    "globex" := "enterprise",
    "initech" := "standard",
    "acme-corp" := "backfill",
    "piedmont" := "small"
  ]

  const INGEST := "/api/v1/events/ingest"
  const CALCULATE := "/api/v1/billing/calculate"
  const GENERATE := "/api/v1/invoices/generate"

  /** The limits tenant by tenant: tokens a second, burst, heavy requests at once. */
  function Promised(tenant: string): TierLimits {
    if tenant == "globex" then TierLimits(500, 1000, 20)
    else if tenant == "initech" then TierLimits(100, 200, 10)
    else if tenant == "acme-corp" then TierLimits(50, 100, 5)
    else if tenant == "piedmont" then TierLimits(20, 50, 3)
    else TierLimits(100, 200, 5)
  }

  /** Unknown tenants get the default plan. The contract records, beside the limits themselves,
      what the bounds of the other modules need from every shipped plan. */
  function PlanFor(tenant: string): (limits: TierLimits)
    ensures limits == Promised(tenant)
    ensures limits.requestsPerSecond * 3600 >= limits.burst
    ensures 20 <= limits.requestsPerSecond
    ensures 50 <= limits.burst
    ensures tenant !in TENANT_PLANS ==> limits.maxConcurrency == 5
  {
    var name := if tenant in TENANT_PLANS then TENANT_PLANS[tenant] else "default";
    PLANS[name]
  }

  function CostOf(path: string): (cost: nat)
    ensures 1 <= cost <= 15
  {
    if path == INGEST then 1 else if path == CALCULATE then 10 else if path == GENERATE then 15 else 1
  }

  /** The endpoints under the slot gate are exactly those that cost more than one token. */
  predicate IsHeavy(path: string)
    ensures IsHeavy(path) <==> CostOf(path) > 1
  {
    path == CALCULATE || path == GENERATE
  }

  /** Every billing endpoint is behind the rate gate. */
  predicate ShouldGuard(path: string)
    ensures path == INGEST || path == CALCULATE || path == GENERATE ==> ShouldGuard(path)
  {
    "/api/v1/" <= path
  }

  /** The guarded paths are those that continue the API prefix. */
  lemma {:induction false} GuardedIff(path: string)
    ensures ShouldGuard(path) <==> exists rest: string :: path == "/api/v1/" + rest
  {
    if ShouldGuard(path) { assert path == "/api/v1/" + path[8..]; }
  }

  /** The caps of a list of tenants, added up. */
  function SumOfCaps(tenants: seq<string>): nat {
    if tenants == [] then 0 else PlanFor(tenants[0]).maxConcurrency + SumOfCaps(tenants[1..])
  }

  function Unlisted(tenants: seq<string>): nat {
    if tenants == [] then 0 else (if tenants[0] in TENANT_PLANS then 0 else 1) + Unlisted(tenants[1..])
  }

  predicate Distinct(tenants: seq<string>) {
    forall i, j :: 0 <= i < j < |tenants| ==> tenants[i] != tenants[j]
  }

  /** What one listed tenant may still contribute to a sum of caps. */
  function Share(tenants: seq<string>, name: string): nat {
    if name in tenants then PlanFor(name).maxConcurrency else 0
  }

  /** The first of distinct tenants adds its own share and nobody else's. */
  lemma {:induction false} ShareOfRest(tenants: seq<string>, name: string)
    requires Distinct(tenants) && tenants != []
    ensures Share(tenants, name)
            == if tenants[0] == name then PlanFor(name).maxConcurrency else Share(tenants[1..], name)
    ensures tenants[0] == name ==> Share(tenants[1..], name) == 0
  {
    hide PlanFor;
    assert tenants == [tenants[0]] + tenants[1..];
  }

  lemma {:induction false} SumOfCapsExact(tenants: seq<string>)
    requires Distinct(tenants)
    ensures SumOfCaps(tenants) ==
            Share(tenants, "globex") + Share(tenants, "initech") + Share(tenants, "acme-corp")
            + Share(tenants, "piedmont") + 5 * Unlisted(tenants)
  {
    if tenants != [] {
      SumOfCapsExact(tenants[1..]);
      ShareOfRest(tenants, "globex");
      ShareOfRest(tenants, "initech");
      ShareOfRest(tenants, "acme-corp");
      ShareOfRest(tenants, "piedmont");
      hide Share;
    }
  }

  /** The pool-sizing comment made precise: distinct tenants have caps adding up to at most
      38 + 5 per unlisted tenant, and with all four listed tenants present a 50-connection
      pool covers them if and only if at most two unlisted tenants are active. */
  lemma {:induction false} PlatformCaps(tenants: seq<string>)
    requires Distinct(tenants)
    ensures SumOfCaps(tenants) <= 38 + 5 * Unlisted(tenants)
    ensures "globex" in tenants && "initech" in tenants && "acme-corp" in tenants && "piedmont" in tenants
            ==> (SumOfCaps(tenants) <= 50 <==> Unlisted(tenants) <= 2)
  {
    SumOfCapsExact(tenants);
  }
}
