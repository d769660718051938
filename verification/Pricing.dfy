/** The price estimator: rate tiers chosen by context size, and the catalog match. */
module Pricing {
  import opened Decimal

  /** A rate text: empty, not a number, or an exact rational number. */
  datatype Rate = Absent | Bad | Price(value: real)

  datatype Rates = Rates(prompt: Rate, completion: Rate, cacheRead: Rate, cacheWrite: Rate, request: Rate)

  datatype Tier = Tier(minPrompt: nat, timed: bool, rates: Rates)

  datatype Model = Model(id: string, pricing: Rates, overrides: seq<Tier>)

  datatype Usage = Usage(input: nat, output: nat, cacheRead: nat, cacheWrite: nat, inputIncludesCache: bool)

  /** Counters are uint64. */
  predicate Counters(u: Usage) {
    u.input < UINT64 && u.output < UINT64 && u.cacheRead < UINT64 && u.cacheWrite < UINT64
  }

  // ----- the context size -------------------------------------------------------------

  /** The tokens charged at the prompt rate; None when the cache exceeds the input. */
  function PromptTokens(u: Usage): Option<nat> {
    if !u.inputIncludesCache then Some(u.input)
    else if u.cacheRead > u.input || u.cacheWrite > u.input - u.cacheRead then None
    else Some(u.input - (u.cacheRead + u.cacheWrite))
  }

  /** prompt + CacheRead + CacheWrite in uint64 arithmetic. */
  function ContextTokens(u: Usage, prompt: nat): nat {
    ((prompt + u.cacheRead) % UINT64 + u.cacheWrite) % UINT64
  }

  /** With cache-inclusive input the parts add up to the input and nothing wraps. */
  lemma InclusiveContext(u: Usage)
    requires Counters(u) && u.inputIncludesCache && PromptTokens(u).Some?
    ensures PromptTokens(u).value + u.cacheRead + u.cacheWrite == u.input
    ensures ContextTokens(u, PromptTokens(u).value) == u.input
  {
  }

  /** With cache-exclusive input the context size is right exactly when the parts add
      up below 2^64. */
  lemma ExclusiveContext(u: Usage)
    requires Counters(u) && !u.inputIncludesCache
    ensures ContextTokens(u, u.input) == u.input + u.cacheRead + u.cacheWrite
       <==> u.input + u.cacheRead + u.cacheWrite < UINT64
  {
  }

  // ----- the tiers ----------------------------------------------------------------------

  function Over(base: Rate, r: Rate): Rate { if r == Absent then base else r }

  /** The four rates a tier can replace. */
  function Override(base: Rates, r: Rates): Rates {
    base.(prompt := Over(base.prompt, r.prompt), completion := Over(base.completion, r.completion),
          cacheRead := Over(base.cacheRead, r.cacheRead), cacheWrite := Over(base.cacheWrite, r.cacheWrite))
  }

  /** An untimed tier the context reaches. */
  predicate Reached(t: Tier, context: nat) { !t.timed && context >= t.minPrompt }

  /** Tier i is taken when no reached tier before it starts higher. */
  predicate Taken(tiers: seq<Tier>, context: nat, i: nat)
    requires i < |tiers|
  {
    Reached(tiers[i], context) && forall j :: 0 <= j < i && Reached(tiers[j], context) ==> tiers[j].minPrompt <= tiers[i].minPrompt
  }

  function Effective(base: Rates, tiers: seq<Tier>, context: nat): Rates {
    if tiers == [] then base else
      var front := Effective(base, tiers[..|tiers| - 1], context);
      if Taken(tiers, context, |tiers| - 1) then Override(front, tiers[|tiers| - 1].rates) else front
  }

  method ChooseRates(base: Rates, tiers: seq<Tier>, context: nat) returns (rates: Rates)
    ensures rates == Effective(base, tiers, context)
  {
    rates := base;
    var threshold := 0;
    for i := 0 to |tiers|
      invariant rates == Effective(base, tiers[..i], context)
      invariant forall j :: 0 <= j < i && Reached(tiers[j], context) ==> tiers[j].minPrompt <= threshold
      invariant threshold == 0 || exists j :: 0 <= j < i && Reached(tiers[j], context) && tiers[j].minPrompt == threshold
    {
      var tier := tiers[i];
      var upTo := tiers[..i + 1];
      assert upTo[..i] == tiers[..i] && upTo[i] == tier;
      assert forall j :: 0 <= j < i ==> upTo[j] == tiers[j];
      if tier.timed { continue; }
      if context >= tier.minPrompt && tier.minPrompt >= threshold {
        assert Taken(upTo, context, i);
        threshold := tier.minPrompt;
        if tier.rates.prompt != Absent { rates := rates.(prompt := tier.rates.prompt); }
        if tier.rates.completion != Absent { rates := rates.(completion := tier.rates.completion); }
        if tier.rates.cacheRead != Absent { rates := rates.(cacheRead := tier.rates.cacheRead); }
        if tier.rates.cacheWrite != Absent { rates := rates.(cacheWrite := tier.rates.cacheWrite); }
      } else {
        assert !Taken(upTo, context, i);
      }
    }
    assert tiers[..|tiers|] == tiers;
  }

  /** The last reached tier with the largest start. */
  predicate Winner(tiers: seq<Tier>, context: nat, w: nat)
    requires w < |tiers|
  {
    && Reached(tiers[w], context)
    && (forall j :: 0 <= j < |tiers| && Reached(tiers[j], context) ==> tiers[j].minPrompt <= tiers[w].minPrompt)
    && (forall j :: w < j < |tiers| && Reached(tiers[j], context) ==> tiers[j].minPrompt < tiers[w].minPrompt)
  }

  /** In any order of tiers, the winner decides every rate it gives. */
  lemma {:induction false} WinnerDecides(base: Rates, tiers: seq<Tier>, context: nat, w: nat)
    requires w < |tiers| && Winner(tiers, context, w)
    ensures var (e, r) := (Effective(base, tiers, context), tiers[w].rates);
            && (r.prompt != Absent ==> e.prompt == r.prompt)
            && (r.completion != Absent ==> e.completion == r.completion)
            && (r.cacheRead != Absent ==> e.cacheRead == r.cacheRead)
            && (r.cacheWrite != Absent ==> e.cacheWrite == r.cacheWrite)
  {
    var k := |tiers| - 1;
    if w < k {
      assert !Taken(tiers, context, k);
      WinnerDecides(base, tiers[..k], context, w);
    }
  }

  /** A tier that gives all four rates makes the order of the others irrelevant. */
  lemma FullWinnerDecidesAll(base: Rates, tiers: seq<Tier>, other: seq<Tier>, context: nat, w: nat, v: nat)
    requires w < |tiers| && Winner(tiers, context, w) && v < |other| && Winner(other, context, v)
    requires tiers[w] == other[v]
    requires var r := tiers[w].rates; Absent !in {r.prompt, r.completion, r.cacheRead, r.cacheWrite}
    ensures Effective(base, tiers, context) == Effective(base, other, context)
  {
    WinnerDecides(base, tiers, context, w);
    WinnerDecides(base, other, context, v);
    RequestKept(base, tiers, context);
    RequestKept(base, other, context);
  }

  lemma {:induction false} RequestKept(base: Rates, tiers: seq<Tier>, context: nat)
    ensures Effective(base, tiers, context).request == base.request
  {
    if tiers != [] { RequestKept(base, tiers[..|tiers| - 1], context); }
  }

  lemma OneTier(base: Rates, t: Tier, context: nat)
    requires Reached(t, context)
    ensures Effective(base, [t], context) == Override(base, t.rates)
  {
    assert [t][..0] == [] && Taken([t], context, 0);
  }

  /** A rate the winner leaves out comes from whichever tiers stand before it, so there
      the order of tiers matters. */
  lemma OrderMatters(base: Rates)
    requires base.completion != Bad
    ensures var low := Tier(0, false, Rates(Absent, Bad, Absent, Absent, Absent));
            var high := Tier(10, false, Rates(Bad, Absent, Absent, Absent, Absent));
            && Effective(base, [low, high], 10).completion == Bad
            && Effective(base, [high, low], 10).completion == base.completion
  {
    var low := Tier(0, false, Rates(Absent, Bad, Absent, Absent, Absent));
    var high := Tier(10, false, Rates(Bad, Absent, Absent, Absent, Absent));
    OneTier(base, low, 10);
    OneTier(base, high, 10);
    assert [low, high][..1] == [low] && [high, low][..1] == [high];
    assert Taken([low, high], 10, 1);
    assert Reached([high, low][0], 10) && !Taken([high, low], 10, 1);
  }

  // ----- the estimate -----------------------------------------------------------------------

  /** A cache rate that is not published is the prompt rate. */
  function Filled(r: Rates): Rates {
    r.(cacheRead := Over(r.prompt, r.cacheRead), cacheWrite := Over(r.prompt, r.cacheWrite))
  }

  predicate Chargeable(n: nat, rate: Rate) { n == 0 || (rate.Price? && rate.value >= 0.0) }

  function Charge(n: nat, rate: Rate): real { if n == 0 || !rate.Price? then 0.0 else rate.value * n as real }

  /** The exact sum: each count at its rate, plus the request price if there is one. */
  function Sum(r: Rates, u: Usage, prompt: nat): real {
    Charge(prompt, r.prompt) + Charge(u.output, r.completion) + Charge(u.cacheRead, r.cacheRead)
    + Charge(u.cacheWrite, r.cacheWrite) + Charge(1, r.request)
  }

  predicate Estimable(r: Rates, u: Usage, prompt: nat) {
    && Chargeable(prompt, r.prompt) && Chargeable(u.output, r.completion)
    && Chargeable(u.cacheRead, r.cacheRead) && Chargeable(u.cacheWrite, r.cacheWrite)
    && (r.request == Absent || Chargeable(1, r.request))
    && r.prompt != Absent && r.completion != Absent
  }

  const UNIT := 100000000.0

  /** FloatString(8) of a sum that is not negative, in units of 10^-8. */
  function Rounded(x: real): int { (x * UNIT + 0.5).Floor }

  function EstimateSpec(m: Model, u: Usage): Option<real> {
    var prompt := PromptTokens(u);
    if prompt.None? then None else
      var r := Filled(Effective(m.pricing, m.overrides, ContextTokens(u, prompt.value)));
      if Estimable(r, u, prompt.value) then Some(Sum(r, u, prompt.value)) else None
  }

  method Estimate(m: Model, u: Usage) returns (printed: Option<int>)
    ensures printed == match EstimateSpec(m, u) case None => None case Some(x) => Some(Rounded(x))
  {
    hide PartsSum, Effective, ContextTokens;
    var prompt := u.input;
    if u.inputIncludesCache {
      if u.cacheRead > prompt || u.cacheWrite > prompt - u.cacheRead { return None; }
      prompt := prompt - (u.cacheRead + u.cacheWrite);
    }
    var rates := ChooseRates(m.pricing, m.overrides, ContextTokens(u, prompt));
    if rates.cacheRead == Absent { rates := rates.(cacheRead := rates.prompt); }
    if rates.cacheWrite == Absent { rates := rates.(cacheWrite := rates.prompt); }
    var parts := [(prompt, rates.prompt), (u.output, rates.completion),
                  (u.cacheRead, rates.cacheRead), (u.cacheWrite, rates.cacheWrite)];
    var total, ok := Parts(parts);
    FourParts(parts);
    assert parts[0].0 == prompt && parts[1].0 == u.output && parts[2].0 == u.cacheRead && parts[3].0 == u.cacheWrite;
    if !ok { return None; }
    if rates.request != Absent {
      if !rates.request.Price? || rates.request.value < 0.0 { return None; }
      total := total + rates.request.value;
    }
    if rates.prompt == Absent || rates.completion == Absent { return None; }
    printed := Some(Rounded(total));
  }

  function PartsSum(parts: seq<(nat, Rate)>): real {
    if parts == [] then 0.0 else PartsSum(parts[..|parts| - 1]) + Charge(parts[|parts| - 1].0, parts[|parts| - 1].1)
  }

  method Parts(parts: seq<(nat, Rate)>) returns (total: real, ok: bool)
    ensures ok <==> forall i :: 0 <= i < |parts| ==> Chargeable(parts[i].0, parts[i].1)
    ensures ok ==> total == PartsSum(parts)
  {
    total, ok := 0.0, true;
    for i := 0 to |parts|
      invariant ok && total == PartsSum(parts[..i])
      invariant forall j :: 0 <= j < i ==> Chargeable(parts[j].0, parts[j].1)
    {
      assert parts[..i + 1][..i] == parts[..i];
      var (n, rate) := (parts[i].0, parts[i].1);
      if n == 0 { continue; }
      if !rate.Price? || rate.value < 0.0 {
        assert !Chargeable(parts[i].0, parts[i].1);
        return 0.0, false;
      }
      total := total + rate.value * n as real;
    }
    assert parts[..|parts|] == parts;
  }

  lemma FourParts(parts: seq<(nat, Rate)>)
    requires |parts| == 4
    ensures PartsSum(parts) == Charge(parts[0].0, parts[0].1) + Charge(parts[1].0, parts[1].1)
                               + Charge(parts[2].0, parts[2].1) + Charge(parts[3].0, parts[3].1)
  {
    hide Charge;
    assert parts[..3][..2] == parts[..2] && parts[..2][..1] == parts[..1] && parts[..1][..0] == [];
    assert PartsSum(parts[..1]) == Charge(parts[0].0, parts[0].1);
    assert PartsSum(parts[..2]) == PartsSum(parts[..1]) + Charge(parts[1].0, parts[1].1);
    assert PartsSum(parts[..3]) == PartsSum(parts[..2]) + Charge(parts[2].0, parts[2].1);
  }

  /** Cache-inclusive input is priced as the cache-exclusive call on the remainder. */
  lemma InclusiveIsExclusive(m: Model, u: Usage)
    requires Counters(u) && u.inputIncludesCache && PromptTokens(u).Some?
    ensures EstimateSpec(m, u) == EstimateSpec(m, u.(input := PromptTokens(u).value, inputIncludesCache := false))
  {
    InclusiveContext(u);
  }

  /** The printed amount is within half a unit of the exact sum. */
  lemma RoundedIsNear(x: real)
    ensures Rounded(x) as real - 0.5 <= x * UNIT <= Rounded(x) as real + 0.5
  {
  }

  // ----- the catalog match --------------------------------------------------------------------

  /** What follows the first slash of an id, if it has one. */
  function Suffix(id: string): Option<string> {
    if id == [] then None else if id[0] == '/' then Some(id[1..]) else Suffix(id[1..])
  }

  predicate SuffixIs(m: Model, name: string) { Suffix(m.id) == Some(name) }

  function Matching(models: seq<Model>, name: string): seq<Model> {
    if models == [] then [] else
      var (front, m) := (Matching(models[..|models| - 1], name), models[|models| - 1]);
      if SuffixIs(m, name) then front + [m] else front
  }

  /** Ids and names are in lower case; `resolve` is the alias table followed by the
      dashed-to-dotted rewriting. An exact id wins, then a dedicated entry for the
      resolved name, then the only model whose suffix it is. */
  method Match(models: seq<Model>, name: string, resolve: string -> string) returns (found: Option<Model>)
    ensures found.Some? ==> found.value in models
    ensures found.Some? && found.value.id == name <==> exists m :: m in models && m.id == name
    ensures (exists m :: m in models && m.id == name) || (exists m :: m in models && m.id == resolve(name))
            || found == (if |Matching(models, resolve(name))| == 1 then Some(Matching(models, resolve(name))[0]) else None)
    ensures !(exists m :: m in models && m.id == name) && (exists m :: m in models && m.id == resolve(name)) ==>
              found.Some? && found.value.id == resolve(name)
  {
    for i := 0 to |models|
      invariant forall j :: 0 <= j < i ==> models[j].id != name
    {
      if models[i].id == name { return Some(models[i]); }
    }
    var target := resolve(name);
    var candidate: Option<Model>, count := None, 0;
    for i := 0 to |models|
      invariant forall j :: 0 <= j < i ==> models[j].id != target
      invariant count == |Matching(models[..i], target)|
      invariant count > 0 ==> candidate == Some(Matching(models[..i], target)[count - 1]) && candidate.value in models
    {
      assert models[..i + 1][..i] == models[..i];
      if models[i].id == target { return Some(models[i]); }
      if SuffixIs(models[i], target) { candidate, count := Some(models[i]), count + 1; }
    }
    assert models[..|models|] == models;
    assert forall m :: m in models ==> m.id != name && m.id != target;
    found := if count == 1 then candidate else None;
  }
}
