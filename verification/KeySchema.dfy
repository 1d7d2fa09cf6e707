/** The six `billing:` key families and when two tenants' key spaces can meet. */
module KeySchema {

  datatype Key =
    | RateLimit(tenant: string)
    | Concurrency(tenant: string)
    | Events(tenant: string)
    | Pricing(tenant: string)
    | Idem(tenant: string, suffix: string)
    | Invoice(tenant: string, suffix: string)

  function Render(k: Key): string {
    match k
    case RateLimit(t) => "billing:ratelimit:" + t
    case Concurrency(t) => "billing:concurrency:" + t
    case Events(t) => "billing:events:" + t
    case Pricing(t) => "billing:pricing:" + t
    case Idem(t, s) => "billing:idem:" + (t + ":" + s)
    case Invoice(t, s) => "billing:invoice:" + (t + ":" + s)
  }

  /** The names other programs know the keys by. */
  lemma {:induction false} KeyNames()
    ensures Render(RateLimit("acme-corp")) == "billing:ratelimit:acme-corp"
    ensures Render(Concurrency("acme-corp")) == "billing:concurrency:acme-corp"
    ensures Render(Events("acme-corp")) == "billing:events:acme-corp"
    ensures Render(Pricing("acme-corp")) == "billing:pricing:acme-corp"
    ensures Render(Idem("acme-corp", "k1")) == "billing:idem:acme-corp:k1"
    ensures Render(Invoice("acme-corp", "inv_1")) == "billing:invoice:acme-corp:inv_1"
  {
  }

  predicate SameFamily(a: Key, b: Key) {
    match a
    case RateLimit(_) => b.RateLimit?
    case Concurrency(_) => b.Concurrency?
    case Events(_) => b.Events?
    case Pricing(_) => b.Pricing?
    case Idem(_, _) => b.Idem?
    case Invoice(_, _) => b.Invoice?
  }

  /** One tenant id is the other followed by a colon and more. */
  predicate Overlap(a: string, b: string) {
    a + ":" <= b || b + ":" <= a
  }

  predicate ColonFree(t: string) {
    ':' !in t
  }

  lemma {:induction false} SplitTail(a: string, s: string, b: string, t: string)
    requires a + ":" + s == b + ":" + t
    requires |a| <= |b|
    ensures (a == b && s == t) || a + ":" <= b
  {
    var w := a + ":" + s;
    assert w[..|a|] == a && w[..|b|] == b;
    assert w[..|a| + 1] == a + ":";
    if |a| < |b| {
      assert b[..|a| + 1] == w[..|a| + 1];
    } else {
      assert w[|a| + 1..] == s && w[|b| + 1..] == t;
    }
  }

  /** Where the two characters after "billing:" differ, so do the keys. */
  lemma {:induction false} FamilyLetters(k: Key)
    ensures |Render(k)| > 9
    ensures Render(k)[8] == (match k case RateLimit(_) => 'r' case Concurrency(_) => 'c' case Events(_) => 'e'
                                     case Pricing(_) => 'p' case Idem(_, _) => 'i' case Invoice(_, _) => 'i')
    ensures k.Idem? ==> Render(k)[9] == 'd'
    ensures k.Invoice? ==> Render(k)[9] == 'n'
  {
  }

  /** Equal keys come from the same family, and from the same tenant and suffix unless one
      tenant id extends the other across a colon. */
  lemma {:induction false} RenderInjective(a: Key, b: Key)
    requires Render(a) == Render(b)
    ensures SameFamily(a, b)
    ensures a == b || ((a.Idem? || a.Invoice?) && Overlap(a.tenant, b.tenant))
  {
    FamilyLetters(a);
    FamilyLetters(b);
    assert SameFamily(a, b);
    match a {
      case RateLimit(t) => assert Render(a)[18..] == t && Render(b)[18..] == b.tenant;
      case Concurrency(t) => assert Render(a)[20..] == t && Render(b)[20..] == b.tenant;
      case Events(t) => assert Render(a)[15..] == t && Render(b)[15..] == b.tenant;
      case Pricing(t) => assert Render(a)[16..] == t && Render(b)[16..] == b.tenant;
      case Idem(t, s) =>
        assert Render(a)[13..] == t + ":" + s && Render(b)[13..] == b.tenant + ":" + b.suffix;
        if |t| <= |b.tenant| { SplitTail(t, s, b.tenant, b.suffix); } else { SplitTail(b.tenant, b.suffix, t, s); }
      case Invoice(t, s) =>
        assert Render(a)[16..] == t + ":" + s && Render(b)[16..] == b.tenant + ":" + b.suffix;
        if |t| <= |b.tenant| { SplitTail(t, s, b.tenant, b.suffix); } else { SplitTail(b.tenant, b.suffix, t, s); }
    }
  }

  lemma {:induction false} NotOneKey(a: Key, b: Key)
    requires !SameFamily(a, b) || (a.RateLimit? && a.tenant != b.tenant)
    ensures Render(a) != Render(b)
  {
    hide Render;
    if Render(a) == Render(b) { RenderInjective(a, b); }
  }

  ghost predicate KeySpacesMeet(a: string, b: string) {
    exists k: Key, l: Key :: k.tenant == a && l.tenant == b && Render(k) == Render(l)
  }

  lemma {:induction false} OverlapMeets(a: string, b: string)
    requires a + ":" <= b
    ensures KeySpacesMeet(a, b) && KeySpacesMeet(b, a)
  {
    var rest := b[|a| + 1..];
    assert b == a + ":" + rest;
    var k, l := Idem(a, rest + ":"), Idem(b, "");
    assert Render(k) == Render(l);
  }

  /** Exact isolation condition: two different tenants own a common Redis key if and only
      if one id is the other extended across a colon; colon-free ids never do. */
  lemma {:induction false} KeySpacesMeetIff(a: string, b: string)
    requires a != b
    ensures KeySpacesMeet(a, b) <==> Overlap(a, b)
    ensures ColonFree(a) && ColonFree(b) ==> !KeySpacesMeet(a, b)
  {
    if KeySpacesMeet(a, b) {
      var k: Key, l: Key :| k.tenant == a && l.tenant == b && Render(k) == Render(l);
      RenderInjective(k, l);
    }
    if a + ":" <= b {
      OverlapMeets(a, b);
      assert b[|a|] == ':';
    } else if b + ":" <= a {
      OverlapMeets(b, a);
      assert a[|b|] == ':';
    }
  }
}
