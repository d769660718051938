/** The join instant: nothing before it reaches any row, and the hour series of a
    join-day row adds up to its totals. */
module JoinCut {
  import opened Decimal
  import opened Rolling
  import opened Projection
  import opened Attribution

  // ----- nothing before joining -----------------------------------------------------

  function SinceBuckets(bs: seq<Bucket>, joined: int): seq<Bucket> {
    if bs == [] then [] else
      var (front, b) := (SinceBuckets(bs[..|bs| - 1], joined), bs[|bs| - 1]);
      if b.start < joined then front else front + [b]
  }

  function SinceLegacy(ls: seq<LegacyDay>, joined: int): seq<LegacyDay> {
    if ls == [] then [] else
      var (front, l) := (SinceLegacy(ls[..|ls| - 1], joined), ls[|ls| - 1]);
      if l.date * DAY < joined then front else front + [l]
  }

  /** The tables without anything that starts before the join. */
  function Since(t: Tables, joined: int): Tables { Tables(SinceBuckets(t.buckets, joined), SinceLegacy(t.legacy,
          joined)) }

  ghost predicate OnlySince(q: Query, joined: int) {
    match q
    case Days(dates) => forall d :: d in dates ==> d > DateOf(joined)
    case Hours(from, _) => from >= joined
  }

  lemma HitSince(q: Query, kind: Kind, b: Bucket, joined: int)
    requires OnlySince(q, joined) && Hit(q, kind, b)
    ensures b.start >= joined
  {
  }

  lemma {:induction false} SelectSince(bs: seq<Bucket>, kind: Kind, q: Query, joined: int)
    requires OnlySince(q, joined)
    ensures Select(SinceBuckets(bs, joined), kind, q) == Select(bs, kind, q)
  {
    hide OnlySince, Hit;
    if bs != [] {
      var (front, b) := (bs[..|bs| - 1], bs[|bs| - 1]);
      SelectSince(front, kind, q, joined);
      if Hit(q, kind, b) { HitSince(q, kind, b, joined); }
      var since := SinceBuckets(front, joined);
      assert (since + [b])[..|since|] == since;
    }
  }

  /** The hour series of a later day, or one cut at the join, ignores earlier buckets. */
  lemma HourlySince(t: Tables, kind: Kind, date: int, id: Identity, since: Option<int>, joined: int)
    requires since == Some(joined) || (since == None && date > DateOf(joined))
    ensures LoadHourly(Since(t, joined), kind, date, id, since) == LoadHourly(t, kind, date, id, since)
  {
    hide Select, Series, WithId;
    var from := if since.Some? && since.value > DayStart(date) then since.value else DayStart(date);
    DayBounds(joined, date);
    SelectSince(t.buckets, kind, Hours(from, DayStart(date) + DAY), joined);
  }

  lemma {:induction false} RowsSince(t: Tables, kind: Kind, gs: seq<Group>, since: Option<int>, joined: int)
    requires since == Some(joined) || (since == None && forall g :: g in gs ==> g.date > DateOf(joined))
    ensures RowsOf(Since(t, joined), kind, gs, since) == RowsOf(t, kind, gs, since)
  {
    hide LoadHourly;
    if gs != [] {
      var g := gs[|gs| - 1];
      RowsSince(t, kind, gs[..|gs| - 1], since, joined);
      assert g in gs;
      HourlySince(t, kind, g.date, g.id, since, joined);
    }
  }

  lemma {:induction false} SelectHits(bs: seq<Bucket>, kind: Kind, q: Query)
    ensures forall b :: b in Select(bs, kind, q) <==> b in bs && Hit(q, kind, b)
  {
    hide Hit;
    if bs != [] {
      SelectHits(bs[..|bs| - 1], kind, q);
      assert bs == bs[..|bs| - 1] + [bs[|bs| - 1]];
    }
  }

  lemma GroupDates(t: Tables, kind: Kind, q: Query, g: Group)
    requires g in Groups(Select(t.buckets, kind, q))
    ensures exists b :: b in t.buckets && Hit(q, kind, b) && BucketPair(b) == (g.date, g.id.agent)
  {
    hide Select, Groups, Hit, BucketPair;
    var bs := Select(t.buckets, kind, q);
    GroupsCover(bs, (g.date, g.id.agent));
    SelectHits(t.buckets, kind, q);
  }

  lemma MetricRowsSince(t: Tables, kind: Kind, q: Query, since: Option<int>, joined: int)
    requires OnlySince(q, joined) && (since == Some(joined) || (since == None && q.Days?))
    ensures MetricRows(Since(t, joined), kind, q, since) == MetricRows(t, kind, q, since)
  {
    hide Select, Groups, RowsOf, DateOf;
    SelectSince(t.buckets, kind, q, joined);
    var gs := Groups(Select(t.buckets, kind, q));
    if since == None {
      forall g | g in gs ensures g.date > DateOf(joined) { GroupDates(t, kind, q, g); }
    }
    RowsSince(t, kind, gs, since, joined);
  }

  lemma {:induction false} LegacySince(ls: seq<LegacyDay>, kind: Kind, source: Source, dates: seq<int>,
          skip: set<DayAgent>, joined: int)
    ensures LegacyRows(SinceLegacy(ls, joined), kind, source, dates, skip, joined)
         == LegacyRows(ls, kind, source, dates, skip, joined)
  {
    hide Offer;
    if ls != [] {
      var (front, l) := (ls[..|ls| - 1], ls[|ls| - 1]);
      LegacySince(front, kind, source, dates, skip, joined);
      var since := SinceLegacy(front, joined);
      assert (since + [l])[..|since|] == since;
    }
  }

  lemma KindRowsSince(t: Tables, kind: Kind, dates: seq<int>, joined: int)
    requires OnlySince(Days(dates), joined)
    ensures KindRows(Since(t, joined), kind, dates, joined) == KindRows(t, kind, dates, joined)
  {
    hide MetricRows, LegacyRows, Covered, OnlySince, SinceBuckets, SinceLegacy;
    MetricRowsSince(t, kind, Days(dates), None, joined);
    var v2 := Covered(MetricRows(t, kind, Days(dates), None));
    if kind == Usage {
      LegacySince(t.legacy, Usage, Models, dates, v2, joined);
      var models := LegacyRows(t.legacy, Usage, Models, dates, v2, joined);
      LegacySince(t.legacy, Usage, Daily, dates, v2 + Covered(models), joined);
    } else {
      LegacySince(t.legacy, Activity, Daily, dates, v2, joined);
      LegacySince(t.legacy, Skill, Skills, dates, v2, joined);
    }
  }

  /** Nothing before the join reaches any row of any kind: removing every bucket and
      legacy day that starts before it leaves the projection as it is. */
  lemma NothingBeforeJoining(t: Tables, dates: seq<int>, joined: int)
    ensures Refresh(Since(t, joined), dates, joined) == Refresh(t, dates, joined)
  {
    hide KindRows, MetricRows, Since, DateOf;
    var after := After(dates, DateOf(joined));
    KindRowsSince(t, Usage, after, joined);
    KindRowsSince(t, Activity, after, joined);
    KindRowsSince(t, Cost, after, joined);
    KindRowsSince(t, Skill, after, joined);
    var q := Hours(joined, DayStart(DateOf(joined)) + DAY);
    MetricRowsSince(t, Usage, q, Some(joined), joined);
    MetricRowsSince(t, Activity, q, Some(joined), joined);
    MetricRowsSince(t, Cost, q, Some(joined), joined);
    MetricRowsSince(t, Skill, q, Some(joined), joined);
  }

  /** The eligibility test of the legacy rows never refuses a date after the join day:
      days start eight hours before their UTC midnight. */
  lemma LaterDaysAreEligible(date: int, joined: int)
    requires date > DateOf(joined)
    ensures LegacyEligible(date, joined)
  {
    DayBounds(joined, date);
  }

  // ----- the hour series adds up -----------------------------------------------------------

  function Whole(bs: seq<Bucket>): Sums {
    if bs == [] then Nothing() else Plus(Whole(bs[..|bs| - 1]), bs[|bs| - 1].sums)
  }

  lemma BucketSumsSnoc(hs: seq<HourBucket>, h: HourBucket)
    ensures BucketSums(hs + [h]) == Plus(BucketSums(hs), Sums(h.exact, h.derived, h.code))
  {
    assert (hs + [h])[..|hs|] == hs;
  }

  lemma FacetPlus(kind: Kind, a: Sums, b: Sums)
    ensures Facet(kind, Plus(a, b)) == Plus(Facet(kind, a), Facet(kind, b))
  {
    match kind
    case Usage =>
    case Activity =>
    case Cost =>
    case Skill =>
  }

  lemma FacetTwice(kind: Kind, a: Sums)
    ensures Facet(kind, Facet(kind, a)) == Facet(kind, a)
  {
  }

  lemma {:induction false} AddHourSums(hs: seq<HourBucket>, kind: Kind, b: Bucket)
    ensures BucketSums(AddHour(hs, kind, b)) == Plus(BucketSums(hs), Facet(kind, b.sums))
    ensures AddHour(hs, kind, b) != []
  {
    hide BucketSums, Facet, Plus;
    var s := Facet(kind, b.sums);
    if hs == [] || (hs[|hs| - 1].startMs.Some? && hs[|hs| - 1].startMs.value < b.start) {
      BucketSumsSnoc(hs, HourBucket(Some(b.start), s.exact, s.derived, s.code));
    } else {
      var (front, h) := (hs[..|hs| - 1], hs[|hs| - 1]);
      assert hs == front + [h];
      BucketSumsSnoc(front, h);
      if h.startMs == Some(b.start) {
        var h' := h.(exact := h.exact + s.exact, derived := h.derived + s.derived, code := h.code + s.code);
        BucketSumsSnoc(front, h');
        PlusFields(BucketSums(front), h, s);
      } else {
        AddHourSums(front, kind, b);
        BucketSumsSnoc(AddHour(front, kind, b), h);
        PlusLaws(BucketSums(front), s, Sums(h.exact, h.derived, h.code));
      }
    }
  }

  lemma PlusFields(a: Sums, h: HourBucket, s: Sums)
    ensures Plus(a, Sums(h.exact + s.exact, h.derived + s.derived, h.code + s.code))
         == Plus(Plus(a, Sums(h.exact, h.derived, h.code)), s)
  {
  }

  ghost predicate AllParse(hs: seq<HourBucket>) { forall h :: h in hs ==> h.startMs.Some? }

  lemma {:induction false} AddHourParses(hs: seq<HourBucket>, kind: Kind, b: Bucket)
    requires AllParse(hs)
    ensures AllParse(AddHour(hs, kind, b))
  {
    if hs != [] {
      assert hs[|hs| - 1] in hs;
      if hs[|hs| - 1].startMs.value >= b.start { AddHourParses(hs[..|hs| - 1], kind, b); }
    }
  }

  lemma {:induction false} ParsedAll(hs: seq<HourBucket>)
    requires AllParse(hs)
    ensures Parsed(hs) == hs
  {
    if hs != [] {
      assert hs[|hs| - 1] in hs;
      ParsedAll(hs[..|hs| - 1]);
    }
  }

  /** The series of a set of buckets parses, is empty only for none, and adds up to them. */
  lemma {:induction false} SeriesAddsUp(kind: Kind, bs: seq<Bucket>)
    ensures BucketSums(Series(kind, bs)) == Facet(kind, Whole(bs))
    ensures AllParse(Series(kind, bs)) && (Series(kind, bs) == [] <==> bs == [])
  {
    hide BucketSums, Plus, Facet, AddHour, AllParse, Nothing;
    if bs == [] {
      EmptySums(kind);
    } else {
      var (front, b) := (bs[..|bs| - 1], bs[|bs| - 1]);
      SeriesAddsUp(kind, front);
      AddHourSums(Series(kind, front), kind, b);
      AddHourParses(Series(kind, front), kind, b);
      FacetPlus(kind, Whole(front), b.sums);
    }
  }

  lemma EmptySums(kind: Kind)
    ensures BucketSums([]) == Facet(kind, Nothing()) && AllParse([])
  {
  }

  lemma {:induction false} WholeOfId(bs: seq<Bucket>, date: int, id: Identity)
    requires forall b :: b in bs ==> DateOf(b.start) == date
    ensures Whole(WithId(bs, id)) == BucketTotal(bs, ById(date, id))
    ensures WithId(bs, id) == [] <==> forall b :: b in bs ==> b.id != id
  {
    hide Plus, Nothing, DateOf;
    if bs != [] {
      var (front, b) := (bs[..|bs| - 1], bs[|bs| - 1]);
      assert bs == front + [b];
      WholeOfId(front, date, id);
      var kept := WithId(front, id);
      assert (kept + [b])[..|kept|] == kept;
      PlusLaws(BucketTotal(front, ById(date, id)), Nothing(), Nothing());
    }
  }

  // ----- groups are distinct --------------------------------------------------------------

  predicate Distinct(gs: seq<Group>) {
    forall i, j :: 0 <= i < j < |gs| ==> gs[i].date != gs[j].date || gs[i].id != gs[j].id
  }

  predicate HasKey(gs: seq<Group>, date: int, id: Identity) { exists g :: g in gs && g.date == date && g.id == id }

  lemma HasKeySnoc(gs: seq<Group>, g: Group, date: int, id: Identity)
    ensures HasKey(gs + [g], date, id) <==> HasKey(gs, date, id) || (g.date == date && g.id == id)
  {
    assert g in gs + [g];
    assert forall x :: x in gs ==> x in gs + [g];
  }

  lemma DistinctSnoc(gs: seq<Group>, g: Group)
    ensures Distinct(gs + [g]) <==> Distinct(gs) && !HasKey(gs, g.date, g.id)
  {
    var all := gs + [g];
    assert forall i :: 0 <= i < |gs| ==> all[i] == gs[i];
    assert all[|gs|] == g;
    if HasKey(gs, g.date, g.id) {
      var i :| 0 <= i < |gs| && gs[i].date == g.date && gs[i].id == g.id;
      assert all[i].date == all[|gs|].date;
    }
  }

  lemma {:induction false} AddToGroupKeys(gs: seq<Group>, b: Bucket, date: int, id: Identity)
    ensures HasKey(AddToGroup(gs, b), date, id) <==> HasKey(gs, date, id) || (DateOf(b.start) == date && b.id == id)
  {
    hide DateOf, HasKey;
    var first := Group(DateOf(b.start), b.id, b.sums);
    if gs == [] {
      assert [] + [first] == [first];
      HasKeySnoc([], first, date, id);
    } else {
      var (front, g) := (gs[..|gs| - 1], gs[|gs| - 1]);
      assert gs == front + [g];
      HasKeySnoc(front, g, date, id);
      if g.date == first.date && g.id == b.id {
        HasKeySnoc(front, g.(sums := Plus(g.sums, b.sums)), date, id);
      } else {
        AddToGroupKeys(front, b, date, id);
        HasKeySnoc(AddToGroup(front, b), g, date, id);
      }
    }
  }

  lemma {:induction false} AddToGroupDistinct(gs: seq<Group>, b: Bucket)
    requires Distinct(gs)
    ensures Distinct(AddToGroup(gs, b))
  {
    hide DateOf, HasKey, Distinct;
    if gs == [] {
      DistinctOne(Group(DateOf(b.start), b.id, b.sums));
    } else {
      var (front, g) := (gs[..|gs| - 1], gs[|gs| - 1]);
      assert gs == front + [g];
      DistinctSnoc(front, g);
      if g.date == DateOf(b.start) && g.id == b.id {
        DistinctSnoc(front, g.(sums := Plus(g.sums, b.sums)));
      } else {
        AddToGroupDistinct(front, b);
        AddToGroupKeys(front, b, g.date, g.id);
        DistinctSnoc(AddToGroup(front, b), g);
      }
    }
  }

  lemma DistinctOne(g: Group)
    ensures Distinct([g]) && Distinct([])
  {
  }

  lemma {:induction false} GroupsDistinct(bs: seq<Bucket>)
    ensures Distinct(Groups(bs))
  {
    if bs != [] {
      GroupsDistinct(bs[..|bs| - 1]);
      AddToGroupDistinct(Groups(bs[..|bs| - 1]), bs[|bs| - 1]);
    }
  }

  lemma {:induction false} OnlyGroup(gs: seq<Group>, g: Group)
    requires Distinct(gs) && g in gs
    ensures GroupTotal(gs, ById(g.date, g.id)) == g.sums
  {
    hide Plus, Nothing;
    var (front, last) := (gs[..|gs| - 1], gs[|gs| - 1]);
    assert gs == front + [last];
    PlusLaws(g.sums, Nothing(), Nothing());
    if last == g {
      OtherGroups(front, g);
    } else {
      OnlyGroup(front, g);
      assert exists i :: 0 <= i < |front| && gs[i] == g;
    }
  }

  lemma {:induction false} OtherGroups(gs: seq<Group>, g: Group)
    requires forall i :: 0 <= i < |gs| ==> gs[i].date != g.date || gs[i].id != g.id
    ensures GroupTotal(gs, ById(g.date, g.id)) == Nothing()
  {
    hide Plus, Nothing;
    if gs != [] {
      PlusLaws(Nothing(), Nothing(), Nothing());
      OtherGroups(gs[..|gs| - 1], g);
    }
  }

  /** A group holds exactly the buckets of its date and identity. */
  lemma GroupExact(bs: seq<Bucket>, g: Group)
    requires g in Groups(bs)
    ensures g.sums == BucketTotal(bs, ById(g.date, g.id))
  {
    hide Groups, GroupTotal, BucketTotal;
    GroupsDistinct(bs);
    OnlyGroup(Groups(bs), g);
    GroupsTotal(bs, ById(g.date, g.id));
  }

  // ----- completeness --------------------------------------------------------------------------

  /** A day row as the rolling window reads it back. */
  function TeamRowOf(r: DayRow, key: string): TeamRow {
    TeamRow(key, r.kind, r.hourly, if r.kind == Usage then r.sums.exact else 0,
            if r.kind == Usage then r.sums.derived else 0, if r.kind == Activity then r.sums.code else 0, 0)
  }

  /** A row is complete exactly when it has hour buckets and they add up to its sums. */
  lemma CompleteExactly(t: Tables, kind: Kind, g: Group, since: Option<int>, hours: seq<Bucket>, key: string)
    requires kind == Usage || kind == Activity
    requires var from := if since.Some? && since.value > DayStart(g.date) then since.value else DayStart(g.date);
             hours == WithId(Select(t.buckets, kind, Hours(from, DayStart(g.date) + DAY)), g.id)
    ensures Complete(TeamRowOf(MetricRow(t, kind, g, since), key))
       <==> hours != [] && Facet(kind, Whole(hours)) == Facet(kind, g.sums)
  {
    hide Select, WithId, BucketSums, Whole, Parsed, Series, DayStart;
    SeriesAddsUp(kind, hours);
    ParsedAll(Series(kind, hours));
    FacetTwice(kind, Whole(hours));
  }

  lemma {:induction false} KeyHasBucket(bs: seq<Bucket>, date: int, id: Identity)
    requires HasKey(Groups(bs), date, id)
    ensures exists b :: b in bs && DateOf(b.start) == date && b.id == id
  {
    hide DateOf, AddToGroup;
    if bs != [] {
      var (front, b) := (bs[..|bs| - 1], bs[|bs| - 1]);
      assert bs == front + [b];
      AddToGroupKeys(Groups(front), b, date, id);
      if HasKey(Groups(front), date, id) { KeyHasBucket(front, date, id); }
    }
  }

  lemma HoursOfJoinDay(bs: seq<Bucket>, kind: Kind, joined: int)
    ensures forall b :: b in Select(bs, kind, Hours(joined, DayStart(DateOf(joined)) + DAY)) ==> DateOf(b.start) == DateOf(joined)
  {
    hide Select;
    SelectHits(bs, kind, Hours(joined, DayStart(DateOf(joined)) + DAY));
    DayBounds(joined, DateOf(joined));
  }

  /** Every usage and activity row of the join day passes the completeness test of the
      rolling window: its totals and its series range over the same hours. */
  lemma JoinRowsComplete(t: Tables, kind: Kind, joined: int, r: DayRow, key: string)
    requires kind == Usage || kind == Activity
    requires r in MetricRows(t, kind, Hours(joined, DayStart(DateOf(joined)) + DAY), Some(joined))
    ensures Complete(TeamRowOf(r, key))
  {
    hide Select, Groups, RowsOf, LoadHourly, Whole, WithId, Complete, BucketTotal, TeamRowOf, DayStart, DateOf;
    var q := Hours(joined, DayStart(DateOf(joined)) + DAY);
    var bs := Select(t.buckets, kind, q);
    RowsOfMembers(t, kind, Groups(bs), Some(joined));
    var g :| g in Groups(bs) && r == MetricRow(t, kind, g, Some(joined));
    HoursOfJoinDay(t.buckets, kind, joined);
    KeyHasBucket(bs, g.date, g.id);
    DayBounds(joined, DateOf(joined));
    GroupExact(bs, g);
    WholeOfId(bs, g.date, g.id);
    CompleteExactly(t, kind, g, Some(joined), WithId(bs, g.id), key);
  }
}
