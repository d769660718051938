/** Projecting a member's personal day metrics into team rows: three overlapping
    sources, none counted twice, and nothing from before the join. */
module Projection {
  import opened Decimal
  import opened Rolling

  const DAY := 86400000
  const EIGHT_HOURS := 28800000

  /** Dates are day numbers; a statistics day begins at midnight of UTC+8. */
  function DateOf(ms: int): int { (ms + EIGHT_HOURS) / DAY }

  function DayStart(date: int): int { date * DAY - EIGHT_HOURS }

  datatype Identity = Identity(agent: string, provider: string, model: string, currency: string, skill: int)

  /** A live v2 bucket of day or hour grain. A cost bucket carries its reported and
      estimated units, a skill bucket its use count, in the first columns. */
  datatype Bucket = Bucket(kind: Kind, hour: bool, start: int, id: Identity, sums: Sums)

  /** Rows of the three legacy daily tables; their dates are UTC days. */
  datatype LegacyDay = ModelDay(date: int, id: Identity, blankModel: bool, exact: nat, derived: nat)
                     | AgentDay(date: int, agent: string, exact: nat, derived: nat,
                                code: nat, duration: nat, messages: nat, userMessages: nat)
                     | SkillDay(date: int, id: Identity, blankKey: bool, uses: nat)

  datatype Tables = Tables(buckets: seq<Bucket>, legacy: seq<LegacyDay>)

  datatype Source = Metrics | Models | Daily | Skills

  datatype DayRow = DayRow(kind: Kind, date: int, id: Identity, sums: Sums, source: Source, hourly: Option<Hourly>)

  /** A statistics day begins at 16:00 UTC: day d + 1 with the instant 57,600,000
      milliseconds into the UTC day d. */
  lemma DayBegins(d: int, ms: int)
    requires 0 <= ms < 86_400_000
    ensures DateOf(d * 86_400_000 + 57_600_000 + ms) == d + 1
  {
  }

  lemma DayBounds(ms: int, date: int)
    ensures DateOf(ms) == date <==> DayStart(date) <= ms < DayStart(date) + DAY
    ensures DateOf(ms) < date <==> ms < DayStart(date)
  {
  }

  // ----- grouped queries ---------------------------------------------------------

  datatype Query = Days(dates: seq<int>) | Hours(from: int, to: int)

  predicate Hit(q: Query, kind: Kind, b: Bucket) {
    b.kind == kind &&
    match q
    case Days(dates) => !b.hour && DateOf(b.start) in dates
    case Hours(from, to) => b.hour && from <= b.start < to
  }

  function Select(bs: seq<Bucket>, kind: Kind, q: Query): seq<Bucket> {
    if bs == [] then [] else
      var (front, b) := (Select(bs[..|bs| - 1], kind, q), bs[|bs| - 1]);
      if Hit(q, kind, b) then front + [b] else front
  }

  datatype Group = Group(date: int, id: Identity, sums: Sums)

  /** GROUP BY date and identity; the order of groups is not fixed by the query. */
  function AddToGroup(gs: seq<Group>, b: Bucket): seq<Group> {
    if gs == [] then [Group(DateOf(b.start), b.id, b.sums)] else
      var (front, g) := (gs[..|gs| - 1], gs[|gs| - 1]);
      if g.date == DateOf(b.start) && g.id == b.id then front + [g.(sums := Plus(g.sums, b.sums))]
      else AddToGroup(front, b) + [g]
  }

  function Groups(bs: seq<Bucket>): seq<Group> {
    if bs == [] then [] else AddToGroup(Groups(bs[..|bs| - 1]), bs[|bs| - 1])
  }

  /** GROUP BY start ORDER BY start, keeping the columns of the kind. */
  function AddHour(hs: seq<HourBucket>, kind: Kind, b: Bucket): seq<HourBucket> {
    var s := Facet(kind, b.sums);
    if hs == [] || (hs[|hs| - 1].startMs.Some? && hs[|hs| - 1].startMs.value < b.start) then
      hs + [HourBucket(Some(b.start), s.exact, s.derived, s.code)]
    else
      var (front, h) := (hs[..|hs| - 1], hs[|hs| - 1]);
      if h.startMs == Some(b.start) then
        front + [h.(exact := h.exact + s.exact, derived := h.derived + s.derived, code := h.code + s.code)]
      else AddHour(front, kind, b) + [h]
  }

  function Series(kind: Kind, bs: seq<Bucket>): seq<HourBucket> {
    if bs == [] then [] else AddHour(Series(kind, bs[..|bs| - 1]), kind, bs[|bs| - 1])
  }

  function WithId(bs: seq<Bucket>, id: Identity): seq<Bucket> {
    if bs == [] then [] else
      var (front, b) := (WithId(bs[..|bs| - 1], id), bs[|bs| - 1]);
      if b.id == id then front + [b] else front
  }

  /** The hour series of one group, from the start of its day, or from `since` when given and later. */
  function LoadHourly(t: Tables, kind: Kind, date: int, id: Identity, since: Option<int>): Hourly {
    var from := if since.Some? && since.value > DayStart(date) then since.value else DayStart(date);
    var series := Series(kind, WithId(Select(t.buckets, kind, Hours(from, DayStart(date) + DAY)), id));
    Hourly(series != [], 0, series)
  }

  function MetricRow(t: Tables, kind: Kind, g: Group, since: Option<int>): DayRow {
    DayRow(kind, g.date, g.id, g.sums, Metrics,
           if kind == Usage || kind == Activity then Some(LoadHourly(t, kind, g.date, g.id, since)) else None)
  }

  function RowsOf(t: Tables, kind: Kind, gs: seq<Group>, since: Option<int>): seq<DayRow> {
    if gs == [] then []
    else RowsOf(t, kind, gs[..|gs| - 1], since) + [MetricRow(t, kind, gs[|gs| - 1], since)]
  }

  function MetricRows(t: Tables, kind: Kind, q: Query, since: Option<int>): seq<DayRow> {
    RowsOf(t, kind, Groups(Select(t.buckets, kind, q)), since)
  }

  // ----- legacy rows ----------------------------------------------------------------

  type DayAgent = (int, string)

  const NoHours := Hourly(false, 0, [])

  /** The row a legacy source offers for a stored day; None where its query skips it. */
  function Offer(kind: Kind, source: Source, l: LegacyDay): Option<DayRow> {
    match (kind, source, l)
    case (Usage, Models, ModelDay(date, id, blank, exact, derived)) =>
      if blank then None else Some(DayRow(Usage, date, id, Sums(exact, derived, 0), Models, Some(NoHours)))
    case (Usage, Daily, AgentDay(date, agent, exact, derived, _, _, _, _)) =>
      Some(DayRow(Usage, date, Identity(agent, "", "", "", 0), Sums(exact, derived, 0), Daily, Some(NoHours)))
    case (Activity, Daily, AgentDay(date, agent, _, _, code, duration, messages, userMessages)) =>
      if code == 0 && duration == 0 && messages == 0 && userMessages == 0 then None
      else Some(DayRow(Activity, date, Identity(agent, "", "", "", 0), Sums(0, 0, code), Daily, None))
    case (Skill, Skills, SkillDay(date, id, blank, uses)) =>
      if blank || uses == 0 then None else Some(DayRow(Skill, date, id, Sums(uses, 0, 0), Skills, None))
    case _ => None
  }

  /** A UTC day counts when its midnight is not before the join. */
  predicate LegacyEligible(date: int, joined: int) { joined <= date * DAY }

  predicate Usable(kind: Kind, source: Source, l: LegacyDay, dates: seq<int>, joined: int) {
    Offer(kind, source, l).Some? && l.date in dates && LegacyEligible(l.date, joined)
  }

  function LegacyRows(ls: seq<LegacyDay>, kind: Kind, source: Source, dates: seq<int>, skip: set<DayAgent>,
          joined: int): seq<DayRow> {
    if ls == [] then [] else
      var (front, l) := (LegacyRows(ls[..|ls| - 1], kind, source, dates, skip, joined), ls[|ls| - 1]);
      if Usable(kind, source, l, dates, joined) && Pair(Offer(kind, source, l).value) !in skip
      then front + [Offer(kind, source, l).value] else front
  }

  function Pair(r: DayRow): DayAgent { (r.date, r.id.agent) }

  function Covered(rows: seq<DayRow>): set<DayAgent> { set r | r in rows :: Pair(r) }

  // ----- the projection -----------------------------------------------------------------

  /** Rows of one kind from days after the join day: v2 metrics first, then each
      legacy source for the day and agent pairs not covered yet. */
  function KindRows(t: Tables, kind: Kind, dates: seq<int>, joined: int): seq<DayRow> {
    var v2 := MetricRows(t, kind, Days(dates), None);
    match kind
    case Usage =>
      var models := LegacyRows(t.legacy, Usage, Models, dates, Covered(v2), joined);
      v2 + models + LegacyRows(t.legacy, Usage, Daily, dates, Covered(v2) + Covered(models), joined)
    case Activity => v2 + LegacyRows(t.legacy, Activity, Daily, dates, Covered(v2), joined)
    case Cost => v2
    case Skill => v2 + LegacyRows(t.legacy, Skill, Skills, dates, Covered(v2), joined)
  }

  function PersonalDays(t: Tables, dates: seq<int>, joined: int): seq<DayRow> {
    KindRows(t, Usage, dates, joined) + KindRows(t, Activity, dates, joined)
    + KindRows(t, Cost, dates, joined) + KindRows(t, Skill, dates, joined)
  }

  /** The join day is cut at hour buckets from the join instant on. */
  function JoinDayHours(t: Tables, joined: int): seq<DayRow> {
    var q := Hours(joined, DayStart(DateOf(joined)) + DAY);
    MetricRows(t, Usage, q, Some(joined)) + MetricRows(t, Activity, q, Some(joined))
    + MetricRows(t, Cost, q, Some(joined)) + MetricRows(t, Skill, q, Some(joined))
  }

  function After(dates: seq<int>, joinDay: int): (r: seq<int>)
    ensures forall d :: d in r <==> d in dates && d > joinDay
  {
    if dates == [] then [] else
      var (front, d) := (After(dates[..|dates| - 1], joinDay), dates[|dates| - 1]);
      if d > joinDay then front + [d] else front
  }

  /** The dates to replace and the rows to put there. */
  function Refresh(t: Tables, dates: seq<int>, joined: int): (seq<int>, seq<DayRow>) {
    var (joinDay, after) := (DateOf(joined), After(dates, DateOf(joined)));
    (after + (if joinDay in dates then [joinDay] else []),
     (if after == [] then [] else PersonalDays(t, after, joined))
     + (if joinDay in dates then JoinDayHours(t, joined) else []))
  }

  // ----- the loops ------------------------------------------------------------------------

  method SplitDatesFromJoin(dates: seq<int>, joinDay: int) returns (after: seq<int>, includeJoinDay: bool)
    ensures after == After(dates, joinDay) && (includeJoinDay <==> joinDay in dates)
  {
    after, includeJoinDay := [], false;
    for i := 0 to |dates|
      invariant after == After(dates[..i], joinDay) && (includeJoinDay <==> joinDay in dates[..i])
    {
      var d := dates[i];
      assert dates[..i + 1] == dates[..i] + [d] && dates[..i + 1][..i] == dates[..i];
      if d < joinDay { continue; }
      if d == joinDay {
        includeJoinDay := true;
        continue;
      }
      after := after + [d];
    }
    assert dates[..|dates|] == dates;
  }

  lemma CoveredNone()
    ensures Covered([]) == {}
  {
  }

  lemma CoveredSnoc(rows: seq<DayRow>, r: DayRow)
    ensures Covered(rows + [r]) == Covered(rows) + {Pair(r)}
  {
    assert r in rows + [r];
    assert forall x :: x in rows ==> x in rows + [r];
  }

  /** Builds the rows of a grouped v2 query and the day and agent pairs they cover. */
  method ProjectMetrics(t: Tables, kind: Kind, q: Query, since: Option<int>) returns (out: seq<DayRow>,
          agents: set<DayAgent>)
    ensures out == MetricRows(t, kind, q, since) && agents == Covered(out)
  {
    hide Groups, LoadHourly, Covered;
    var gs := Groups(Select(t.buckets, kind, q));
    out, agents := [], {};
    CoveredNone();
    for i := 0 to |gs|
      invariant out == RowsOf(t, kind, gs[..i], since) && agents == Covered(out)
    {
      assert gs[..i + 1][..i] == gs[..i];
      var row := MetricRow(t, kind, gs[i], since);
      CoveredSnoc(out, row);
      out := out + [row];
      agents := agents + {Pair(row)};
    }
    assert gs[..|gs|] == gs;
  }

  /** Adds a legacy source for the pairs not in `skip`. */
  method ProjectLegacy(ls: seq<LegacyDay>, kind: Kind, source: Source, dates: seq<int>, skip: set<DayAgent>,
          joined: int)
    returns (out: seq<DayRow>, agents: set<DayAgent>)
    ensures out == LegacyRows(ls, kind, source, dates, skip, joined) && agents == Covered(out)
  {
    out, agents := [], {};
    for i := 0 to |ls|
      invariant out == LegacyRows(ls[..i], kind, source, dates, skip, joined) && agents == Covered(out)
    {
      var l := ls[i];
      assert ls[..i + 1][..i] == ls[..i];
      var offer := Offer(kind, source, l);
      if l.date !in dates || offer.None? { continue; }
      if !LegacyEligible(l.date, joined) { continue; }
      if Pair(offer.value) in skip { continue; }
      CoveredSnoc(out, offer.value);
      out := out + [offer.value];
      agents := agents + {Pair(offer.value)};
    }
    assert ls[..|ls|] == ls;
  }

  method ProjectPersonalDays(t: Tables, dates: seq<int>, joined: int) returns (out: seq<DayRow>)
    ensures out == PersonalDays(t, dates, joined)
  {
    hide MetricRows, LegacyRows, Covered;
    var usages, v2Agents := ProjectMetrics(t, Usage, Days(dates), None);
    var models, modelAgents := ProjectLegacy(t.legacy, Usage, Models, dates, v2Agents, joined);
    var daily, _ := ProjectLegacy(t.legacy, Usage, Daily, dates, v2Agents + modelAgents, joined);
    var activity, v2Activity := ProjectMetrics(t, Activity, Days(dates), None);
    var legacyActivity, _ := ProjectLegacy(t.legacy, Activity, Daily, dates, v2Activity, joined);
    var costs, _ := ProjectMetrics(t, Cost, Days(dates), None);
    var skills, v2Skills := ProjectMetrics(t, Skill, Days(dates), None);
    var legacySkills, _ := ProjectLegacy(t.legacy, Skill, Skills, dates, v2Skills, joined);
    out := (usages + models + daily) + (activity + legacyActivity) + costs + (skills + legacySkills);
  }

  method ProjectJoinDayHours(t: Tables, joined: int) returns (out: seq<DayRow>)
    ensures out == JoinDayHours(t, joined)
  {
    hide MetricRows, Covered;
    var q := Hours(joined, DayStart(DateOf(joined)) + DAY);
    var usages, _ := ProjectMetrics(t, Usage, q, Some(joined));
    var activity, _ := ProjectMetrics(t, Activity, q, Some(joined));
    var costs, _ := ProjectMetrics(t, Cost, q, Some(joined));
    var skills, _ := ProjectMetrics(t, Skill, q, Some(joined));
    out := usages + activity + costs + skills;
  }

  method RefreshCurrentTeamDays(t: Tables, dates: seq<int>, joined: int) returns (replaced: seq<int>, rows: seq<DayRow>)
    ensures (replaced, rows) == Refresh(t, dates, joined)
  {
    hide PersonalDays, JoinDayHours;
    var after, includeJoinDay := SplitDatesFromJoin(dates, DateOf(joined));
    replaced, rows := after, [];
    if after != [] {
      var projected := ProjectPersonalDays(t, after, joined);
      rows := rows + projected;
    }
    assert rows == if after == [] then [] else PersonalDays(t, after, joined);
    if includeJoinDay {
      var projected := ProjectJoinDayHours(t, joined);
      rows := rows + projected;
      replaced := replaced + [DateOf(joined)];
    } else {
      assert replaced + [] == replaced && rows + [] == rows;
    }
  }
}
