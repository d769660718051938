/** What a refresh reports, said of the source tables alone: on later days the chosen
    daily source, on the join day every hour from the join instant on. */
module TeamReport {
  import opened Decimal
  import opened Rolling
  import opened Projection
  import opened Attribution
  import opened TeamDays
  import opened TeamTotals

  // ----- what the tables hold ------------------------------------------------------------

  predicate OfDay(b: Bucket, kind: Kind, date: int, agent: string) {
    b.kind == kind && !b.hour && DateOf(b.start) == date && b.id.agent == agent
  }

  predicate OfHours(b: Bucket, kind: Kind, agent: string, from: int, to: int) {
    b.kind == kind && b.hour && from <= b.start < to && b.id.agent == agent
  }

  /** The day buckets of a kind, date and agent, summed. */
  function DaySum(bs: seq<Bucket>, kind: Kind, date: int, agent: string): Sums {
    if bs == [] then Nothing() else
      var b := bs[|bs| - 1];
      Plus(DaySum(bs[..|bs| - 1], kind, date, agent), When(OfDay(b, kind, date, agent), b.sums))
  }

  /** The hour buckets of a kind and agent in a span, summed. */
  function HourSum(bs: seq<Bucket>, kind: Kind, agent: string, from: int, to: int): Sums {
    if bs == [] then Nothing() else
      var b := bs[|bs| - 1];
      Plus(HourSum(bs[..|bs| - 1], kind, agent, from, to), When(OfHours(b, kind, agent, from, to), b.sums))
  }

  /** What one stored day of a legacy table adds to a kind for a date and agent. */
  function Share(l: LegacyDay, kind: Kind, source: Source, date: int, agent: string): Sums {
    match l
    case ModelDay(d, id, blank, exact, derived) =>
      When(kind == Usage && source == Models && d == date && id.agent == agent && !blank, Sums(exact, derived, 0))
    case AgentDay(d, a, exact, derived, code, _, _, _) =>
      When(source == Daily && d == date && a == agent,
           match kind case Usage => Sums(exact, derived, 0) case Activity => Sums(0, 0, code) case _ => Nothing())
    case SkillDay(d, id, blank, uses) =>
      When(kind == Skill && source == Skills && d == date && id.agent == agent && !blank, Sums(uses, 0, 0))
  }

  function LegacySum(ls: seq<LegacyDay>, kind: Kind, source: Source, date: int, agent: string): Sums {
    if ls == [] then Nothing() else
      Plus(LegacySum(ls[..|ls| - 1], kind, source, date, agent), Share(ls[|ls| - 1], kind, source, date, agent))
  }

  predicate ModelDayOf(l: LegacyDay, date: int, agent: string) {
    l.ModelDay? && l.date == date && l.id.agent == agent && !l.blankModel
  }

  /** What a day after the join is to report: the day buckets if there are any; else, for
      usage, the named model days if there are any; else the legacy table of the kind. */
  function DayReport(t: Tables, kind: Kind, date: int, agent: string): Sums {
    if exists b :: b in t.buckets && OfDay(b, kind, date, agent) then DaySum(t.buckets, kind, date, agent)
    else match kind
      case Usage =>
        if exists l :: l in t.legacy && ModelDayOf(l, date, agent) then LegacySum(t.legacy, Usage, Models, date, agent)
        else LegacySum(t.legacy, Usage, Daily, date, agent)
      case Activity => LegacySum(t.legacy, Activity, Daily, date, agent)
      case Cost => Nothing()
      case Skill => LegacySum(t.legacy, Skill, Skills, date, agent)
  }

  /** What the join day is to report: every hour from the join instant to its end. */
  function JoinReport(t: Tables, kind: Kind, joined: int, agent: string): Sums {
    HourSum(t.buckets, kind, agent, joined, DayStart(DateOf(joined)) + DAY)
  }

  // ----- the queries find it ----------------------------------------------------------------

  lemma BucketTotalSnoc(bs: seq<Bucket>, b: Bucket, cell: Cell)
    ensures BucketTotal(bs + [b], cell) == Plus(BucketTotal(bs, cell), When(In(cell, DateOf(b.start), b.id), b.sums))
  {
    assert (bs + [b])[..|bs|] == bs;
  }

  lemma {:induction false} DaysFound(bs: seq<Bucket>, kind: Kind, dates: seq<int>, date: int, agent: string)
    requires date in dates
    ensures BucketTotal(Select(bs, kind, Days(dates)), ByAgent(date, agent)) == DaySum(bs, kind, date, agent)
    ensures HasBucket(Select(bs, kind, Days(dates)), (date, agent)) <==> exists b :: b in bs && OfDay(b, kind, date, agent)
  {
    hide Plus, Nothing, DateOf, BucketTotal, HasBucket;
    if bs == [] {
      NoBuckets(ByAgent(date, agent), (date, agent));
    } else {
      var (front, b) := (bs[..|bs| - 1], bs[|bs| - 1]);
      assert bs == front + [b];
      DaysFound(front, kind, dates, date, agent);
      var found := Select(front, kind, Days(dates));
      BucketTotalSnoc(found, b, ByAgent(date, agent));
      HasBucketSnoc(found, b, (date, agent));
      PlusLaws(DaySum(front, kind, date, agent), Nothing(), Nothing());
    }
  }

  lemma NoBuckets(cell: Cell, pair: DayAgent)
    ensures BucketTotal([], cell) == Nothing() && !HasBucket([], pair)
  {
  }

  lemma {:induction false} HoursFound(bs: seq<Bucket>, kind: Kind, from: int, to: int, date: int, agent: string)
    requires DayStart(date) <= from && to <= DayStart(date) + DAY
    ensures BucketTotal(Select(bs, kind, Hours(from, to)), ByAgent(date, agent)) == HourSum(bs, kind, agent, from, to)
  {
    hide Plus, Nothing, DateOf, DayStart, BucketTotal;
    if bs == [] {
      NoBuckets(ByAgent(date, agent), (date, agent));
    } else {
      var (front, b) := (bs[..|bs| - 1], bs[|bs| - 1]);
      assert bs == front + [b];
      HoursFound(front, kind, from, to, date, agent);
      BucketTotalSnoc(Select(front, kind, Hours(from, to)), b, ByAgent(date, agent));
      DayBounds(b.start, date);
      PlusLaws(HourSum(front, kind, agent, from, to), Nothing(), Nothing());
    }
  }

  predicate Serves(kind: Kind, source: Source) {
    (kind == Usage && (source == Models || source == Daily)) || (kind == Activity && source == Daily)
    || (kind == Skill && source == Skills)
  }

  /** Whether one stored day is taken and what it then brings. */
  lemma OfferShares(l: LegacyDay, kind: Kind, source: Source, dates: seq<int>, joined: int, pair: DayAgent)
    requires Serves(kind, source) && pair.0 in dates && LegacyEligible(pair.0, joined)
    ensures var taken := Usable(kind, source, l, dates, joined) && Pair(Offer(kind, source, l).value) == pair;
      && Share(l, kind, source, pair.0, pair.1) == (if taken then Offer(kind, source, l).value.sums else Nothing())
      && (kind == Usage && source == Models ==> (taken <==> ModelDayOf(l, pair.0, pair.1)))
  {
  }

  lemma {:induction false} LegacyFound(ls: seq<LegacyDay>, kind: Kind, source: Source, dates: seq<int>, joined: int, pair: DayAgent)
    requires Serves(kind, source) && pair.0 in dates && LegacyEligible(pair.0, joined)
    ensures LegacyHeld(ls, kind, source, dates, joined, pair) == LegacySum(ls, kind, source, pair.0, pair.1)
  {
    hide Plus, Nothing, Offer, Share, Usable;
    if ls != [] {
      LegacyFound(ls[..|ls| - 1], kind, source, dates, joined, pair);
      OfferShares(ls[|ls| - 1], kind, source, dates, joined, pair);
      PlusLaws(LegacySum(ls[..|ls| - 1], kind, source, pair.0, pair.1), Nothing(), Nothing());
    }
  }

  lemma ModelsFound(t: Tables, dates: seq<int>, joined: int, pair: DayAgent)
    requires pair.0 in dates && LegacyEligible(pair.0, joined)
    ensures HasLegacy(t, Usage, Models, dates, joined, pair) <==> exists l :: l in t.legacy && ModelDayOf(l, pair.0, pair.1)
  {
    hide Offer, Share;
    forall l | l in t.legacy
      ensures Usable(Usage, Models, l, dates, joined) && Pair(Offer(Usage, Models, l).value) == pair <==> ModelDayOf(l, pair.0, pair.1)
    {
      OfferShares(l, Usage, Models, dates, joined, pair);
    }
  }

  /** The chosen source of a day holds what the day is to report. */
  lemma ChosenReports(t: Tables, kind: Kind, dates: seq<int>, joined: int, pair: DayAgent)
    requires pair.0 in dates && pair.0 > DateOf(joined)
    ensures SourceTotal(t, kind, Chosen(t, kind, dates, joined, pair), dates, joined, pair) == DayReport(t, kind, pair.0, pair.1)
  {
    hide Select, BucketTotal, DaySum, LegacyHeld, LegacySum, HasBucket, HasLegacy, DateOf, OfDay, ModelDayOf, Nothing;
    DayBounds(joined, pair.0);
    DaysFound(t.buckets, kind, dates, pair.0, pair.1);
    ModelsFound(t, dates, joined, pair);
    if kind == Usage { LegacyFound(t.legacy, Usage, Models, dates, joined, pair); }
    if kind == Usage || kind == Activity { LegacyFound(t.legacy, kind, Daily, dates, joined, pair); }
    if kind == Skill { LegacyFound(t.legacy, Skill, Skills, dates, joined, pair); }
    if kind == Cost { NoCostLegacy(t, dates, joined, pair); }
  }

  // ----- the supplied rows report it ----------------------------------------------------------

  /** On every requested day after the join, the supplied rows of a kind and agent report
      what the tables hold for it. */
  lemma LaterDayReported(t: Tables, dates: seq<int>, joined: int, kind: Kind, pair: DayAgent)
    requires pair.0 in dates && pair.0 > DateOf(joined)
    ensures RowTotal(Refresh(t, dates, joined).1, kind, ByAgent(pair.0, pair.1)) == DayReport(t, kind, pair.0, pair.1)
  {
    hide RowTotal, Refresh, DayReport, SourceTotal, Chosen, DateOf;
    RefreshTotal(t, dates, joined, kind, pair);
    ChosenReports(t, kind, After(dates, DateOf(joined)), joined, pair);
  }

  lemma HourRowsTotal(t: Tables, kind: Kind, of: Kind, joined: int, agent: string)
    ensures var q := Hours(joined, DayStart(DateOf(joined)) + DAY);
            RowTotal(MetricRows(t, of, q, Some(joined)), kind, ByAgent(DateOf(joined), agent))
            == if of == kind then JoinReport(t, kind, joined, agent) else Nothing()
  {
    hide MetricRows, RowTotal, BucketTotal, Select, HourSum, DateOf, DayStart, Nothing, OfKind;
    var (date, q, cell) := (DateOf(joined), Hours(joined, DayStart(DateOf(joined)) + DAY), ByAgent(DateOf(joined), agent));
    if of == kind {
      MetricRowsTotal(t, kind, q, Some(joined), cell);
      DayBounds(joined, date);
      HoursFound(t.buckets, kind, joined, DayStart(date) + DAY, date, agent);
    } else {
      HourRowsLabelled(t, of, q, joined);
      OtherKindTotal(MetricRows(t, of, q, Some(joined)), kind, of, cell);
    }
  }

  lemma HourRowsLabelled(t: Tables, of: Kind, q: Query, joined: int)
    ensures OfKind(MetricRows(t, of, q, Some(joined)), of)
  {
    hide MetricRows;
    MetricRowsLabelled(t, of, q, Some(joined));
  }

  lemma JoinHoursTotal(t: Tables, kind: Kind, joined: int, agent: string)
    ensures RowTotal(JoinDayHours(t, joined), kind, ByAgent(DateOf(joined), agent)) == JoinReport(t, kind, joined, agent)
  {
    hide MetricRows, RowTotal, HourSum, DateOf, DayStart, Nothing, Plus;
    var (q, cell) := (Hours(joined, DayStart(DateOf(joined)) + DAY), ByAgent(DateOf(joined), agent));
    var (u, a, c, s) := (MetricRows(t, Usage, q, Some(joined)), MetricRows(t, Activity, q, Some(joined)),
                         MetricRows(t, Cost, q, Some(joined)), MetricRows(t, Skill, q, Some(joined)));
    HourRowsTotal(t, kind, Usage, joined, agent);
    HourRowsTotal(t, kind, Activity, joined, agent);
    HourRowsTotal(t, kind, Cost, joined, agent);
    HourRowsTotal(t, kind, Skill, joined, agent);
    RowTotalConcat(u, a, kind, cell);
    RowTotalConcat(u + a, c, kind, cell);
    RowTotalConcat(u + a + c, s, kind, cell);
    PlusLaws(JoinReport(t, kind, joined, agent), Nothing(), Nothing());
    PlusLaws(Nothing(), Nothing(), Nothing());
  }

  /** When the join day is requested, the supplied rows of a kind and agent report every
      hour from the join instant to the end of that day. */
  lemma JoinDayReported(t: Tables, dates: seq<int>, joined: int, kind: Kind, agent: string)
    requires DateOf(joined) in dates
    ensures RowTotal(Refresh(t, dates, joined).1, kind, ByAgent(DateOf(joined), agent)) == JoinReport(t, kind, joined, agent)
  {
    hide PersonalDays, JoinDayHours, RowTotal, JoinReport, DateOf, Nothing, Plus, KindRows;
    var (after, cell) := (After(dates, DateOf(joined)), ByAgent(DateOf(joined), agent));
    var days := if after == [] then [] else PersonalDays(t, after, joined);
    forall r | r in days ensures r.date != cell.date { LaterDates(t, after, joined, r); }
    OtherDateTotal(days, kind, cell);
    JoinHoursTotal(t, kind, joined, agent);
    RowTotalConcat(days, JoinDayHours(t, joined), kind, cell);
    PlusLaws(JoinReport(t, kind, joined, agent), Nothing(), Nothing());
  }

  lemma LaterDates(t: Tables, after: seq<int>, joined: int, r: DayRow)
    requires r in PersonalDays(t, after, joined)
    ensures r.date in after
  {
    hide KindRows;
    KindDates(t, if r in KindRows(t, Usage, after, joined) then Usage
                 else if r in KindRows(t, Activity, after, joined) then Activity
                 else if r in KindRows(t, Cost, after, joined) then Cost else Skill, after, joined, r);
  }

  // ----- the table reports it -------------------------------------------------------------------

  /** What a requested date is to report. */
  function Report(t: Tables, kind: Kind, date: int, joined: int, agent: string): Sums {
    if date == DateOf(joined) then JoinReport(t, kind, joined, agent) else DayReport(t, kind, date, agent)
  }

  /** The table after a refresh: for every requested day from the join day on, kind and
      agent, the member's live rows and the rows lost to a shared key together report
      what the source tables hold. */
  lemma RefreshReports(order: seq<RowId>, rows: Rows, team: string, contributor: string, t: Tables, dates: seq<int>,
          joined: int, now: int, kind: Kind, date: int, agent: string)
    requires Keyed(rows) && date in dates && date >= DateOf(joined)
    requires var (replaced, supplied) := Refresh(t, dates, joined);
             Scan(order, Replaced(rows, team, contributor, replaced, AllValid(supplied), now))
    ensures var (replaced, supplied) := Refresh(t, dates, joined);
            Plus(StoredTotal(order, Replaced(rows, team, contributor, replaced, AllValid(supplied), now), contributor, kind,
                             ByAgent(date, agent)),
                 RowTotal(Lost(AllValid(supplied), contributor), kind, ByAgent(date, agent)))
            == Report(t, kind, date, joined, agent)
  {
    hide Replaced, RowTotal, Plus, DateOf, Keyed, Scan, PersonalDays, JoinDayHours, StoredTotal, Lost, JoinReport, DayReport;
    var (replaced, supplied) := Refresh(t, dates, joined);
    var rs := AllValid(supplied);
    forall r | r in rs ensures r.row.date in replaced { RefreshStaysInDates(t, dates, joined, r.row); }
    StoredPlusLost(order, rows, team, contributor, replaced, rs, now, kind, ByAgent(date, agent));
    RowsInAll(supplied);
    if date == DateOf(joined) {
      JoinDayReported(t, dates, joined, kind, agent);
    } else {
      LaterDayReported(t, dates, joined, kind, (date, agent));
    }
  }
}
