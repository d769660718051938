/** What an estimate charges for what: the laws that fix the amount, said over the rates
    in force. */
module PriceLaws {
  import opened Decimal
  import opened Pricing

  // ----- when there is no amount ---------------------------------------------------------

  /** More cached than put in, where the input is to include the cache. */
  predicate Overdrawn(u: Usage) { u.inputIncludesCache && u.cacheRead + u.cacheWrite > u.input }

  /** The tokens put in beside the cached ones. */
  function Fresh(u: Usage): nat
    requires !Overdrawn(u)
  {
    if u.inputIncludesCache then u.input - u.cacheRead - u.cacheWrite else u.input
  }

  /** The rates in force: the context is the input, with the cache in uint64 arithmetic
      where the input leaves it out. */
  function InForce(m: Model, u: Usage): Rates {
    Effective(m.pricing, m.overrides,
              if u.inputIncludesCache then u.input else (u.input + u.cacheRead + u.cacheWrite) % UINT64)
  }

  function OwnOrPrompt(own: Rate, prompt: Rate): Rate { if own.Absent? then prompt else own }

  predicate Usable(r: Rate) { r.Price? && r.value >= 0.0 }

  lemma WrapsOnce(a: nat, b: nat)
    requires a < 2 * UINT64
    ensures (a % UINT64 + b) % UINT64 == (a + b) % UINT64
  {
    if a >= UINT64 { assert a % UINT64 == a - UINT64; }
  }

  lemma ContextIs(u: Usage)
    requires Counters(u)
    ensures PromptTokens(u).None? <==> Overdrawn(u)
    ensures !Overdrawn(u) ==>
      && PromptTokens(u) == Some(Fresh(u))
      && ContextTokens(u, Fresh(u)) == if u.inputIncludesCache then u.input else (u.input + u.cacheRead + u.cacheWrite) % UINT64
  {
    if !Overdrawn(u) {
      if u.inputIncludesCache {
        hide ContextTokens;
        InclusiveContext(u);
      } else {
        WrapsOnce(u.input + u.cacheRead, u.cacheWrite);
      }
    }
  }

  /** There is no amount exactly when more is cached than was put in, the prompt or the
      completion rate is not published, or a rate that is used is unusable: one whose
      count is not zero, or a request price that is published. */
  lemma AbsentExactly(m: Model, u: Usage)
    requires Counters(u)
    ensures EstimateSpec(m, u).None? <==>
      || Overdrawn(u)
      || (var e := InForce(m, u);
          || e.prompt.Absent? || e.completion.Absent?
          || (Fresh(u) > 0 && !Usable(e.prompt))
          || (u.output > 0 && !Usable(e.completion))
          || (u.cacheRead > 0 && !Usable(OwnOrPrompt(e.cacheRead, e.prompt)))
          || (u.cacheWrite > 0 && !Usable(OwnOrPrompt(e.cacheWrite, e.prompt)))
          || (!e.request.Absent? && !Usable(e.request)))
  {
    hide Effective, ContextTokens, PromptTokens;
    ContextIs(u);
  }

  // ----- what each count costs ------------------------------------------------------------

  /** The price of a request, nothing when none is published. */
  function RequestPrice(r: Rates): real { if r.request.Price? then r.request.value else 0.0 }

  function Times(n: nat, price: real): real { price * n as real }

  lemma ChargeOf(n: nat, rate: Rate)
    ensures n == 0 ==> Charge(n, rate) == 0.0
    ensures Chargeable(n, rate) && n > 0 ==> rate.Price? && Charge(n, rate) == Times(n, rate.value)
    ensures Charge(1, rate) == if rate.Price? then rate.value else 0.0
  {
    assert rate.Price? ==> rate.value * 1.0 == rate.value;
  }

  /** The sum when only one count is not zero. */
  lemma OneCharge(r: Rates, u: Usage, p: nat)
    requires Estimable(r, u, p)
    ensures u.output == u.cacheRead == u.cacheWrite == 0 ==> Sum(r, u, p) == Charge(p, r.prompt) + RequestPrice(r)
    ensures p == u.cacheRead == u.cacheWrite == 0 ==> Sum(r, u, p) == Charge(u.output, r.completion) + RequestPrice(r)
    ensures p == u.output == u.cacheWrite == 0 ==> Sum(r, u, p) == Charge(u.cacheRead, r.cacheRead) + RequestPrice(r)
    ensures p == u.output == u.cacheRead == 0 ==> Sum(r, u, p) == Charge(u.cacheWrite, r.cacheWrite) + RequestPrice(r)
    ensures p > 0 ==> r.prompt.Price? && Charge(p, r.prompt) == Times(p, r.prompt.value)
    ensures u.output > 0 ==> r.completion.Price? && Charge(u.output, r.completion) == Times(u.output, r.completion.value)
    ensures u.cacheRead > 0 ==> r.cacheRead.Price? && Charge(u.cacheRead, r.cacheRead) == Times(u.cacheRead, r.cacheRead.value)
    ensures u.cacheWrite > 0 ==> r.cacheWrite.Price? && Charge(u.cacheWrite, r.cacheWrite) == Times(u.cacheWrite, r.cacheWrite.value)
  {
    hide Charge, Chargeable, Times;
    ChargeOf(p, r.prompt);
    ChargeOf(u.output, r.completion);
    ChargeOf(u.cacheRead, r.cacheRead);
    ChargeOf(u.cacheWrite, r.cacheWrite);
    ChargeOf(1, r.request);
  }

  /** The rates an estimate uses, and what it sums over them. */
  lemma EstimateIs(m: Model, u: Usage)
    requires Counters(u) && EstimateSpec(m, u).Some?
    ensures !Overdrawn(u) && Estimable(Filled(InForce(m, u)), u, Fresh(u))
    ensures EstimateSpec(m, u) == Some(Sum(Filled(InForce(m, u)), u, Fresh(u)))
  {
    hide Effective, ContextTokens, PromptTokens, Sum, Estimable, Filled;
    ContextIs(u);
  }

  /** A usage that is nothing but prompt tokens costs them at the prompt rate. */
  lemma PromptAlone(m: Model, n: nat, inclusive: bool)
    requires 0 < n < UINT64 && EstimateSpec(m, Usage(n, 0, 0, 0, inclusive)).Some?
    ensures var e := Effective(m.pricing, m.overrides, n);
            e.prompt.Price? && EstimateSpec(m, Usage(n, 0, 0, 0, inclusive)) == Some(Times(n, e.prompt.value) + RequestPrice(e))
  {
    hide Effective, EstimateSpec, Sum, Charge, Estimable, Times;
    var u := Usage(n, 0, 0, 0, inclusive);
    EstimateIs(m, u);
    OneCharge(Filled(InForce(m, u)), u, Fresh(u));
    assert Fresh(u) == n && InForce(m, u) == Effective(m.pricing, m.overrides, n);
  }

  /** A usage that is nothing but output tokens costs them at the completion rate. */
  lemma OutputAlone(m: Model, n: nat, inclusive: bool)
    requires 0 < n < UINT64 && EstimateSpec(m, Usage(0, n, 0, 0, inclusive)).Some?
    ensures var e := Effective(m.pricing, m.overrides, 0);
            e.completion.Price? && EstimateSpec(m, Usage(0, n, 0, 0, inclusive)) == Some(Times(n, e.completion.value) + RequestPrice(e))
  {
    hide Effective, EstimateSpec, Sum, Charge, Estimable, Times;
    var u := Usage(0, n, 0, 0, inclusive);
    EstimateIs(m, u);
    OneCharge(Filled(InForce(m, u)), u, Fresh(u));
    assert Fresh(u) == 0 && InForce(m, u) == Effective(m.pricing, m.overrides, 0);
  }

  /** Cache reads cost their own rate, or the prompt rate when none is published. */
  lemma CacheReadAlone(m: Model, n: nat, inclusive: bool)
    requires 0 < n < UINT64
    requires EstimateSpec(m, Usage(if inclusive then n else 0, 0, n, 0, inclusive)).Some?
    ensures var e := Effective(m.pricing, m.overrides, n);
            var rate := if e.cacheRead.Absent? then e.prompt else e.cacheRead;
            rate.Price? && EstimateSpec(m, Usage(if inclusive then n else 0, 0, n, 0, inclusive))
                           == Some(Times(n, rate.value) + RequestPrice(e))
  {
    hide Effective, EstimateSpec, Sum, Charge, Estimable, Times;
    var u := Usage(if inclusive then n else 0, 0, n, 0, inclusive);
    EstimateIs(m, u);
    OneCharge(Filled(InForce(m, u)), u, Fresh(u));
    assert Fresh(u) == 0 && InForce(m, u) == Effective(m.pricing, m.overrides, n);
  }

  /** Cache writes cost their own rate, or the prompt rate when none is published. */
  lemma CacheWriteAlone(m: Model, n: nat, inclusive: bool)
    requires 0 < n < UINT64
    requires EstimateSpec(m, Usage(if inclusive then n else 0, 0, 0, n, inclusive)).Some?
    ensures var e := Effective(m.pricing, m.overrides, n);
            var rate := if e.cacheWrite.Absent? then e.prompt else e.cacheWrite;
            rate.Price? && EstimateSpec(m, Usage(if inclusive then n else 0, 0, 0, n, inclusive))
                           == Some(Times(n, rate.value) + RequestPrice(e))
  {
    hide Effective, EstimateSpec, Sum, Charge, Estimable, Times;
    var u := Usage(if inclusive then n else 0, 0, 0, n, inclusive);
    EstimateIs(m, u);
    OneCharge(Filled(InForce(m, u)), u, Fresh(u));
    assert Fresh(u) == 0 && InForce(m, u) == Effective(m.pricing, m.overrides, n);
  }

  // ----- counts add up --------------------------------------------------------------------

  function Together(u: Usage, v: Usage): Usage {
    Usage(u.input + v.input, u.output + v.output, u.cacheRead + v.cacheRead, u.cacheWrite + v.cacheWrite,
          u.inputIncludesCache)
  }

  lemma ChargesAdd(n: nat, k: nat, rate: Rate)
    ensures Charge(n + k, rate) == Charge(n, rate) + Charge(k, rate)
    ensures Chargeable(n + k, rate) <==> Chargeable(n, rate) && Chargeable(k, rate)
  {
  }

  lemma SumsAdd(r: Rates, u: Usage, v: Usage, p: nat, q: nat)
    ensures Sum(r, Together(u, v), p + q) + Charge(1, r.request) == Sum(r, u, p) + Sum(r, v, q)
    ensures Estimable(r, Together(u, v), p + q) <==> Estimable(r, u, p) && Estimable(r, v, q)
  {
    hide Charge, Chargeable;
    ChargesAdd(p, q, r.prompt);
    ChargesAdd(u.output, v.output, r.completion);
    ChargesAdd(u.cacheRead, v.cacheRead, r.cacheRead);
    ChargesAdd(u.cacheWrite, v.cacheWrite, r.cacheWrite);
  }

  /** At the same rates in force two usages together have an amount exactly when both
      have one, and it is the sum of theirs with the request charged once. */
  lemma Additive(m: Model, u: Usage, v: Usage)
    requires Counters(u) && Counters(v) && Counters(Together(u, v)) && u.inputIncludesCache == v.inputIncludesCache
    requires !Overdrawn(u) && !Overdrawn(v)
    requires InForce(m, u) == InForce(m, v) == InForce(m, Together(u, v))
    ensures var (x, y, z) := (EstimateSpec(m, u), EstimateSpec(m, v), EstimateSpec(m, Together(u, v)));
      && (z.Some? <==> x.Some? && y.Some?)
      && (z.Some? ==> z.value + RequestPrice(InForce(m, u)) == x.value + y.value)
  {
    hide Effective, ContextTokens, PromptTokens, Sum, Estimable;
    ContextIs(u);
    ContextIs(v);
    ContextIs(Together(u, v));
    SumsAdd(Filled(InForce(m, u)), u, v, Fresh(u), Fresh(v));
  }

  /** An empty usage costs the request alone. */
  lemma EmptyCostsRequest(m: Model, inclusive: bool)
    requires EstimateSpec(m, Usage(0, 0, 0, 0, inclusive)).Some?
    ensures EstimateSpec(m, Usage(0, 0, 0, 0, inclusive)) == Some(RequestPrice(Effective(m.pricing, m.overrides, 0)))
  {
    hide Effective, EstimateSpec, Sum, Charge, Estimable, Times;
    var u := Usage(0, 0, 0, 0, inclusive);
    EstimateIs(m, u);
    OneCharge(Filled(InForce(m, u)), u, Fresh(u));
    ChargeOf(0, Filled(InForce(m, u)).prompt);
  }
}
