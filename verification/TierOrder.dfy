/** When the order in which a catalog lists its tiers makes no difference to a rate. */
module TierOrder {
  import opened Pricing

  datatype Field = PromptRate | CompletionRate | CacheReadRate | CacheWriteRate

  function Pick(r: Rates, f: Field): Rate {
    match f
    case PromptRate => r.prompt
    case CompletionRate => r.completion
    case CacheReadRate => r.cacheRead
    case CacheWriteRate => r.cacheWrite
  }

  function RateOf(base: Rates, tiers: seq<Tier>, context: nat, f: Field): Rate {
    Pick(Effective(base, tiers, context), f)
  }

  predicate Gives(t: Tier, f: Field) { Pick(t.rates, f) != Absent }

  /** A reached tier of largest start. */
  predicate Top(tiers: seq<Tier>, context: nat, t: Tier) {
    t in tiers && Reached(t, context) && forall u :: u in tiers && Reached(u, context) ==> u.minPrompt <= t.minPrompt
  }

  ghost predicate SameTiers(tiers: seq<Tier>, other: seq<Tier>) { multiset(other) == multiset(tiers) }

  /** Every order of the tiers gives the rate the same value. */
  ghost predicate OrderFree(base: Rates, tiers: seq<Tier>, context: nat, f: Field) {
    forall other :: SameTiers(tiers, other) ==> RateOf(base, other, context, f) == RateOf(base, tiers, context, f)
  }

  predicate TopGives(tiers: seq<Tier>, context: nat, f: Field) {
    exists t :: t in tiers && Top(tiers, context, t) && Gives(t, f)
  }

  /** The tiers of largest start that give the rate agree on it; if there are none, every
      reached tier that gives it gives what the base has. */
  predicate Settled(base: Rates, tiers: seq<Tier>, context: nat, f: Field) {
    if TopGives(tiers, context, f) then
      forall t, u :: t in tiers && u in tiers && Top(tiers, context, t) && Top(tiers, context, u) && Gives(t, f) && Gives(u, f) ==>
        Pick(t.rates, f) == Pick(u.rates, f)
    else
      forall t :: t in tiers && Reached(t, context) && Gives(t, f) ==> Pick(t.rates, f) == Pick(base, f)
  }

  // ----- one tier more ------------------------------------------------------------------

  lemma RateSnoc(base: Rates, front: seq<Tier>, t: Tier, context: nat, f: Field)
    ensures RateOf(base, front + [t], context, f)
         == if Taken(front + [t], context, |front|) && Gives(t, f) then Pick(t.rates, f) else RateOf(base, front, context, f)
  {
    assert (front + [t])[..|front|] == front;
  }

  lemma TakenSnoc(front: seq<Tier>, t: Tier, context: nat)
    ensures Taken(front + [t], context, |front|)
       <==> Reached(t, context) && forall u :: u in front && Reached(u, context) ==> u.minPrompt <= t.minPrompt
  {
    var all := front + [t];
    assert forall j :: 0 <= j < |front| ==> all[j] == front[j];
    assert all[|front|] == t;
  }

  /** A rate comes from the base or from a reached tier that gives it. */
  lemma {:induction false} RateSource(base: Rates, tiers: seq<Tier>, context: nat, f: Field)
    ensures RateOf(base, tiers, context, f) == Pick(base, f)
         || exists t :: t in tiers && Reached(t, context) && Gives(t, f) && Pick(t.rates, f) == RateOf(base, tiers, context, f)
  {
    hide Reached, Gives, Pick, Override;
    if tiers != [] {
      var (front, t) := (tiers[..|tiers| - 1], tiers[|tiers| - 1]);
      assert tiers == front + [t];
      RateSource(base, front, context, f);
      RateSnoc(base, front, t, context, f);
      TakenSnoc(front, t, context);
      hide RateOf, Taken;
      if Taken(front + [t], context, |front|) && Gives(t, f) {
        assert t in tiers;
      } else if RateOf(base, front, context, f) != Pick(base, f) {
        var u :| u in front && Reached(u, context) && Gives(u, f) && Pick(u.rates, f) == RateOf(base, front, context, f);
        assert u in tiers;
      }
    }
  }

  /** Once a tier of start m that gives the rate has passed, the rate comes from such a
      tier, if no reached tier starts above m. */
  lemma {:induction false} TopSource(base: Rates, tiers: seq<Tier>, context: nat, f: Field, m: nat)
    requires forall u :: u in tiers && Reached(u, context) ==> u.minPrompt <= m
    requires exists t :: t in tiers && Reached(t, context) && t.minPrompt == m && Gives(t, f)
    ensures exists t :: t in tiers && Reached(t, context) && t.minPrompt == m && Gives(t, f)
                        && Pick(t.rates, f) == RateOf(base, tiers, context, f)
  {
    hide Reached, Gives, Pick, RateOf, Taken;
    var (front, t) := (tiers[..|tiers| - 1], tiers[|tiers| - 1]);
    assert tiers == front + [t];
    RateSnoc(base, front, t, context, f);
    TakenSnoc(front, t, context);
    if Reached(t, context) && t.minPrompt == m && Gives(t, f) {
      assert t in tiers;
    } else {
      var u :| u in tiers && Reached(u, context) && u.minPrompt == m && Gives(u, f);
      assert u in front;
      TopSource(base, front, context, f, m);
      var v :| v in front && Reached(v, context) && v.minPrompt == m && Gives(v, f) && Pick(v.rates, f) == RateOf(base, front, context, f);
      assert v in tiers;
    }
  }

  /** Behind a tier of start m only tiers of that start count, and those here do not
      give the rate. */
  lemma {:induction false} BehindTop(base: Rates, front: seq<Tier>, rest: seq<Tier>, context: nat, f: Field, x: Tier)
    requires x in front && Reached(x, context)
    requires forall u :: u in rest && Reached(u, context) && u.minPrompt >= x.minPrompt ==> !Gives(u, f)
    ensures RateOf(base, front + rest, context, f) == RateOf(base, front, context, f)
  {
    hide Reached, Gives, Pick, RateOf, Taken;
    if rest == [] {
      assert front + rest == front;
    } else {
      var (init, t) := (rest[..|rest| - 1], rest[|rest| - 1]);
      assert rest == init + [t] && front + rest == (front + init) + [t];
      BehindTop(base, front, init, context, f, x);
      RateSnoc(base, front + init, t, context, f);
      TakenSnoc(front + init, t, context);
      assert x in front + init && t in rest;
    }
  }

  // ----- sufficient -----------------------------------------------------------------------

  lemma SameMembers(tiers: seq<Tier>, other: seq<Tier>)
    requires SameTiers(tiers, other)
    ensures forall t :: t in other <==> t in tiers
  {
    forall t ensures t in other <==> t in tiers { assert t in other <==> t in multiset(other); }
  }

  lemma SettledValue(base: Rates, tiers: seq<Tier>, other: seq<Tier>, context: nat, f: Field)
    requires Settled(base, tiers, context, f) && SameTiers(tiers, other)
    ensures RateOf(base, other, context, f) == RateOf(base, tiers, context, f)
  {
    hide Reached, Gives, Pick, RateOf, SameTiers;
    SameMembers(tiers, other);
    if TopGives(tiers, context, f) {
      var t :| t in tiers && Top(tiers, context, t) && Gives(t, f);
      TopSource(base, tiers, context, f, t.minPrompt);
      TopSource(base, other, context, f, t.minPrompt);
    } else {
      RateSource(base, tiers, context, f);
      RateSource(base, other, context, f);
    }
  }

  // ----- necessary ---------------------------------------------------------------------------

  lemma TakeOut(tiers: seq<Tier>, t: Tier) returns (rest: seq<Tier>)
    requires t in tiers
    ensures multiset(rest) == multiset(tiers) - multiset{t}
    ensures SameTiers(tiers, rest + [t]) && SameTiers(tiers, [t] + rest)
  {
    var i :| 0 <= i < |tiers| && tiers[i] == t;
    rest := tiers[..i] + tiers[i + 1..];
    assert tiers == tiers[..i] + [t] + tiers[i + 1..];
  }

  /** With a giving tier of largest start at the end, the rate is its value. */
  lemma LastDecides(base: Rates, tiers: seq<Tier>, context: nat, f: Field, t: Tier)
    requires Top(tiers, context, t) && Gives(t, f)
    ensures exists other :: SameTiers(tiers, other) && RateOf(base, other, context, f) == Pick(t.rates, f)
  {
    hide Reached, Gives, Pick, RateOf, Taken;
    var rest := TakeOut(tiers, t);
    SameMembers(tiers, rest + [t]);
    RateSnoc(base, rest, t, context, f);
    TakenSnoc(rest, t, context);
    assert forall u :: u in rest ==> u in rest + [t];
    assert SameTiers(tiers, rest + [t]);
  }

  lemma {:induction false} TopExists(tiers: seq<Tier>, context: nat, t: Tier) returns (x: Tier)
    requires t in tiers && Reached(t, context)
    ensures Top(tiers, context, x)
  {
    hide Reached;
    var (front, last) := (tiers[..|tiers| - 1], tiers[|tiers| - 1]);
    assert tiers == front + [last];
    if u :| u in front && Reached(u, context) {
      x := TopExists(front, context, u);
      if Reached(last, context) && last.minPrompt > x.minPrompt { x := last; }
      assert x in tiers;
    } else {
      x := last;
      assert t == last;
    }
  }

  /** When no tier of largest start gives the rate and one of them stands first, the
      base decides. */
  lemma TopFirst(base: Rates, tiers: seq<Tier>, context: nat, f: Field, x: Tier)
    requires !TopGives(tiers, context, f) && Top(tiers, context, x)
    ensures exists other :: SameTiers(tiers, other) && RateOf(base, other, context, f) == Pick(base, f)
  {
    hide Reached, Gives, Pick, RateOf, Taken, TopGives, SameTiers;
    var rest := TakeOut(tiers, x);
    SameMembers(tiers, [x] + rest);
    NoTopGives(tiers, context, f, x);
    assert x in tiers && !Gives(x, f);
    StartsWith(base, [], x, context, f);
    assert [] + [x] == [x];
    assert forall u :: u in rest ==> u in [x] + rest;
    BehindTop(base, [x], rest, context, f, x);
  }

  lemma TwoOut(tiers: seq<Tier>, t: Tier, x: Tier) returns (rest: seq<Tier>)
    requires t in tiers && x in tiers && t != x
    ensures SameTiers(tiers, [t, x] + rest)
  {
    var most := TakeOut(tiers, x);
    assert t in multiset(tiers) - multiset{x};
    assert t in multiset(most);
    rest := TakeOut(most, t);
    assert multiset([t, x] + rest) == multiset{x} + (multiset{t} + multiset(rest));
    assert multiset(most) == multiset{t} + multiset(rest);
  }

  /** If a lower tier stands before it, that tier does. */
  lemma LowerFirst(base: Rates, tiers: seq<Tier>, context: nat, f: Field, t: Tier, x: Tier)
    requires !TopGives(tiers, context, f) && Top(tiers, context, x) && t in tiers && Reached(t, context) && Gives(t, f)
    ensures exists other :: SameTiers(tiers, other) && RateOf(base, other, context, f) == Pick(t.rates, f)
  {
    hide Reached, Gives, Pick, RateOf, Taken, TopGives, SameTiers;
    NoTopGives(tiers, context, f, x);
    assert x in tiers && !Gives(x, f);
    var rest := TwoOut(tiers, t, x);
    var other := [t, x] + rest;
    SameMembers(tiers, other);
    StartsWith(base, [], t, context, f);
    StartsWith(base, [t], x, context, f);
    assert [t] + [x] == [t, x] && [] + [t] == [t];
    assert forall u :: u in rest ==> u in other;
    BehindTop(base, [t, x], rest, context, f, x);
  }

  lemma NoTopGives(tiers: seq<Tier>, context: nat, f: Field, x: Tier)
    requires !TopGives(tiers, context, f) && Top(tiers, context, x)
    ensures forall u :: u in tiers && Reached(u, context) && u.minPrompt >= x.minPrompt ==> !Gives(u, f)
  {
    hide Reached, Gives;
    forall u | u in tiers && Reached(u, context) && u.minPrompt >= x.minPrompt ensures !Gives(u, f) {
      assert Top(tiers, context, u);
    }
  }

  /** The rate after at most one tier and another that is reached and not below it. */
  lemma StartsWith(base: Rates, front: seq<Tier>, t: Tier, context: nat, f: Field)
    requires Reached(t, context) && forall u :: u in front ==> u.minPrompt <= t.minPrompt
    ensures RateOf(base, front + [t], context, f) == if Gives(t, f) then Pick(t.rates, f) else RateOf(base, front, context, f)
    ensures RateOf(base, [], context, f) == Pick(base, f)
  {
    RateSnoc(base, front, t, context, f);
    TakenSnoc(front, t, context);
  }

  /** A rate is the same in every order of the tiers if and only if the tiers of largest
      start that give it agree, or, when none of them gives it, every reached tier that
      does gives the base's value. */
  lemma OrderFreeExactly(base: Rates, tiers: seq<Tier>, context: nat, f: Field)
    ensures OrderFree(base, tiers, context, f) <==> Settled(base, tiers, context, f)
  {
    hide Reached, Gives, Pick, RateOf, SameTiers, Top, TopGives;
    if Settled(base, tiers, context, f) {
      forall other | SameTiers(tiers, other) ensures RateOf(base, other, context, f) == RateOf(base, tiers, context, f) {
        SettledValue(base, tiers, other, context, f);
      }
    } else if TopGives(tiers, context, f) {
      var t, u :| t in tiers && u in tiers && Top(tiers, context, t) && Top(tiers, context, u) && Gives(t, f) && Gives(u, f)
                  && Pick(t.rates, f) != Pick(u.rates, f);
      LastDecides(base, tiers, context, f, t);
      LastDecides(base, tiers, context, f, u);
    } else {
      var t :| t in tiers && Reached(t, context) && Gives(t, f) && Pick(t.rates, f) != Pick(base, f);
      var x := TopExists(tiers, context, t);
      TopFirst(base, tiers, context, f, x);
      LowerFirst(base, tiers, context, f, t, x);
    }
  }

  /** The two tiers of OrderMatters, as an instance: the higher one leaves the rate out
      and the lower one gives another than the base. */
  lemma TwoTiersUnsettled(base: Rates)
    requires base.completion != Bad
    ensures var low := Tier(0, false, Rates(Absent, Bad, Absent, Absent, Absent));
            var high := Tier(10, false, Rates(Bad, Absent, Absent, Absent, Absent));
            !OrderFree(base, [low, high], 10, CompletionRate) && !Settled(base, [low, high], 10, CompletionRate)
  {
    hide Effective, Settled;
    var low := Tier(0, false, Rates(Absent, Bad, Absent, Absent, Absent));
    var high := Tier(10, false, Rates(Bad, Absent, Absent, Absent, Absent));
    OrderMatters(base);
    assert SameTiers([low, high], [high, low]);
    assert RateOf(base, [high, low], 10, CompletionRate) != RateOf(base, [low, high], 10, CompletionRate);
    OrderFreeExactly(base, [low, high], 10, CompletionRate);
  }
}
