/** What the projected team rows may be relied on for: one source per day and agent,
    nothing from before the join, and join-day series that add up. */
module Attribution {
  import opened Decimal
  import opened Rolling
  import opened Projection

  /** The buckets of one day and agent, or of one day and full identity. */
  datatype Cell = ByAgent(date: int, agent: string) | ById(date: int, id: Identity)

  predicate In(cell: Cell, date: int, id: Identity) {
    match cell
    case ByAgent(d, a) => date == d && id.agent == a
    case ById(d, i) => date == d && id == i
  }

  function Nothing(): Sums { Sums(0, 0, 0) }

  function When(c: bool, s: Sums): Sums { if c then s else Nothing() }

  function BucketTotal(bs: seq<Bucket>, cell: Cell): Sums {
    if bs == [] then Nothing() else
      var b := bs[|bs| - 1];
      Plus(BucketTotal(bs[..|bs| - 1], cell), When(In(cell, DateOf(b.start), b.id), b.sums))
  }

  function GroupTotal(gs: seq<Group>, cell: Cell): Sums {
    if gs == [] then Nothing() else
      var g := gs[|gs| - 1];
      Plus(GroupTotal(gs[..|gs| - 1], cell), When(In(cell, g.date, g.id), g.sums))
  }

  function RowTotal(rows: seq<DayRow>, kind: Kind, cell: Cell): Sums {
    if rows == [] then Nothing() else
      var r := rows[|rows| - 1];
      Plus(RowTotal(rows[..|rows| - 1], kind, cell), When(r.kind == kind && In(cell, r.date, r.id), r.sums))
  }

  lemma PlusLaws(a: Sums, b: Sums, c: Sums)
    ensures Plus(Plus(a, b), c) == Plus(a, Plus(b, c)) == Plus(Plus(a, c), b)
    ensures Plus(a, Nothing()) == a == Plus(Nothing(), a)
  {
  }

  // ----- grouping conserves every cell -----------------------------------------------

  lemma GroupTotalSnoc(gs: seq<Group>, g: Group, cell: Cell)
    ensures GroupTotal(gs + [g], cell) == Plus(GroupTotal(gs, cell), When(In(cell, g.date, g.id), g.sums))
  {
    assert (gs + [g])[..|gs|] == gs;
  }

  lemma {:induction false} AddToGroupTotal(gs: seq<Group>, b: Bucket, cell: Cell)
    ensures GroupTotal(AddToGroup(gs, b), cell)
         == Plus(GroupTotal(gs, cell), When(In(cell, DateOf(b.start), b.id), b.sums))
  {
    hide DateOf, In, Plus, GroupTotal;
    var d := DateOf(b.start);
    if gs == [] {
      assert [] + [Group(d, b.id, b.sums)] == [Group(d, b.id, b.sums)];
      GroupTotalSnoc([], Group(d, b.id, b.sums), cell);
    } else {
      var (front, g) := (gs[..|gs| - 1], gs[|gs| - 1]);
      assert front + [g] == gs;
      GroupTotalSnoc(front, g, cell);
      if g.date == d && g.id == b.id {
        GroupTotalSnoc(front, g.(sums := Plus(g.sums, b.sums)), cell);
        PlusLaws(GroupTotal(front, cell), g.sums, b.sums);
        PlusLaws(GroupTotal(front, cell), b.sums, b.sums);
        PlusLaws(Nothing(), b.sums, b.sums);
      } else {
        AddToGroupTotal(front, b, cell);
        GroupTotalSnoc(AddToGroup(front, b), g, cell);
        PlusLaws(GroupTotal(front, cell), When(In(cell, d, b.id), b.sums), When(In(cell, g.date, g.id), g.sums));
      }
    }
  }

  lemma {:induction false} GroupsTotal(bs: seq<Bucket>, cell: Cell)
    ensures GroupTotal(Groups(bs), cell) == BucketTotal(bs, cell)
  {
    hide GroupTotal, DateOf, In, Plus, AddToGroup;
    if bs == [] {
      assert GroupTotal([], cell) == Nothing() by { GroupTotalNone(cell); }
    } else {
      GroupsTotal(bs[..|bs| - 1], cell);
      AddToGroupTotal(Groups(bs[..|bs| - 1]), bs[|bs| - 1], cell);
    }
  }

  lemma GroupTotalNone(cell: Cell)
    ensures GroupTotal([], cell) == Nothing()
  {
  }

  // ----- row totals --------------------------------------------------------------------

  lemma RowTotalSnoc(rows: seq<DayRow>, r: DayRow, kind: Kind, cell: Cell)
    ensures RowTotal(rows + [r], kind, cell)
         == Plus(RowTotal(rows, kind, cell), When(r.kind == kind && In(cell, r.date, r.id), r.sums))
  {
    assert (rows + [r])[..|rows|] == rows;
  }

  lemma RowTotalNone(kind: Kind, cell: Cell)
    ensures RowTotal([], kind, cell) == Nothing()
  {
  }

  lemma {:induction false} RowTotalConcat(a: seq<DayRow>, b: seq<DayRow>, kind: Kind, cell: Cell)
    ensures RowTotal(a + b, kind, cell) == Plus(RowTotal(a, kind, cell), RowTotal(b, kind, cell))
  {
    hide Plus, In;
    if b == [] {
      assert a + b == a;
      PlusLaws(RowTotal(a, kind, cell), RowTotal(a, kind, cell), RowTotal(a, kind, cell));
    } else {
      var (front, r) := (b[..|b| - 1], b[|b| - 1]);
      RowTotalConcat(a, front, kind, cell);
      assert a + b == a + front + [r] && b == front + [r];
      RowTotalSnoc(a + front, r, kind, cell);
      PlusLaws(RowTotal(a, kind, cell), RowTotal(front, kind, cell), When(r.kind == kind && In(cell, r.date, r.id), r.sums));
    }
  }

  predicate OfKind(rows: seq<DayRow>, kind: Kind) { forall r :: r in rows ==> r.kind == kind }

  lemma {:induction false} OtherKindTotal(rows: seq<DayRow>, kind: Kind, other: Kind, cell: Cell)
    requires OfKind(rows, other) && kind != other
    ensures RowTotal(rows, kind, cell) == Nothing()
  {
    hide Plus, Nothing, In;
    if rows != [] {
      PlusLaws(Nothing(), Nothing(), Nothing());
      OtherKindTotal(rows[..|rows| - 1], kind, other, cell);
    }
  }

  lemma {:induction false} MetricTotal(t: Tables, kind: Kind, gs: seq<Group>, since: Option<int>, cell: Cell)
    ensures RowTotal(RowsOf(t, kind, gs, since), kind, cell) == GroupTotal(gs, cell)
    ensures OfKind(RowsOf(t, kind, gs, since), kind)
  {
    hide LoadHourly, In, Plus;
    if gs != [] {
      MetricTotal(t, kind, gs[..|gs| - 1], since, cell);
      RowTotalSnoc(RowsOf(t, kind, gs[..|gs| - 1], since), MetricRow(t, kind, gs[|gs| - 1], since), kind, cell);
    }
  }

  // ----- one source per day and agent ------------------------------------------------------

  predicate HasMetrics(t: Tables, kind: Kind, dates: seq<int>, pair: DayAgent) {
    HasBucket(Select(t.buckets, kind, Days(dates)), pair)
  }

  predicate HasLegacy(t: Tables, kind: Kind, source: Source, dates: seq<int>, joined: int, pair: DayAgent) {
    exists l :: l in t.legacy && Usable(kind, source, l, dates, joined) && Pair(Offer(kind, source, l).value) == pair
  }

  /** The source that serves a day and agent: v2 metrics if there are any, else the
      legacy model rows, else the legacy daily row. */
  function Chosen(t: Tables, kind: Kind, dates: seq<int>, joined: int, pair: DayAgent): Source {
    if HasMetrics(t, kind, dates, pair) then Metrics
    else if kind == Usage && HasLegacy(t, Usage, Models, dates, joined, pair) then Models
    else if kind == Skill then Skills
    else Daily
  }

  predicate HasGroup(gs: seq<Group>, pair: DayAgent) { exists g :: g in gs && g.date == pair.0 && g.id.agent == pair.1 }

  predicate HasBucket(bs: seq<Bucket>, pair: DayAgent) { exists b :: b in bs && BucketPair(b) == pair }

  function BucketPair(b: Bucket): DayAgent { (DateOf(b.start), b.id.agent) }

  lemma HasGroupSnoc(gs: seq<Group>, g: Group, pair: DayAgent)
    ensures HasGroup(gs + [g], pair) <==> HasGroup(gs, pair) || (g.date, g.id.agent) == pair
  {
    assert g in gs + [g];
    assert forall x :: x in gs ==> x in gs + [g];
  }

  lemma HasBucketSnoc(bs: seq<Bucket>, b: Bucket, pair: DayAgent)
    ensures HasBucket(bs + [b], pair) <==> HasBucket(bs, pair) || BucketPair(b) == pair
  {
    assert b in bs + [b];
    assert forall x :: x in bs ==> x in bs + [b];
  }

  lemma {:induction false} AddToGroupCovers(gs: seq<Group>, b: Bucket, pair: DayAgent)
    ensures HasGroup(AddToGroup(gs, b), pair) <==> HasGroup(gs, pair) || BucketPair(b) == pair
  {
    hide DateOf, HasGroup;
    var first := Group(DateOf(b.start), b.id, b.sums);
    if gs == [] {
      assert [] + [first] == [first];
      HasGroupSnoc([], first, pair);
    } else {
      var (front, g) := (gs[..|gs| - 1], gs[|gs| - 1]);
      assert gs == front + [g];
      HasGroupSnoc(front, g, pair);
      if g.date == first.date && g.id == b.id {
        HasGroupSnoc(front, g.(sums := Plus(g.sums, b.sums)), pair);
      } else {
        AddToGroupCovers(front, b, pair);
        HasGroupSnoc(AddToGroup(front, b), g, pair);
      }
    }
  }

  lemma {:induction false} GroupsCover(bs: seq<Bucket>, pair: DayAgent)
    ensures HasGroup(Groups(bs), pair) <==> HasBucket(bs, pair)
  {
    hide DateOf, AddToGroup, BucketPair;
    if bs != [] {
      var (front, b) := (bs[..|bs| - 1], bs[|bs| - 1]);
      assert bs == front + [b];
      GroupsCover(front, pair);
      AddToGroupCovers(Groups(front), b, pair);
      HasBucketSnoc(front, b, pair);
    }
  }

  lemma {:induction false} RowsOfMembers(t: Tables, kind: Kind, gs: seq<Group>, since: Option<int>)
    ensures forall r :: r in RowsOf(t, kind, gs, since) ==> exists g :: g in gs && r == MetricRow(t, kind, g, since)
    ensures forall g :: g in gs ==> MetricRow(t, kind, g, since) in RowsOf(t, kind, gs, since)
  {
    hide LoadHourly;
    if gs != [] {
      RowsOfMembers(t, kind, gs[..|gs| - 1], since);
      assert gs == gs[..|gs| - 1] + [gs[|gs| - 1]];
    }
  }

  lemma MetricsCover(t: Tables, kind: Kind, dates: seq<int>, pair: DayAgent)
    ensures pair in Covered(MetricRows(t, kind, Days(dates), None)) <==> HasMetrics(t, kind, dates, pair)
  {
    hide Select, Groups, RowsOf, DateOf, LoadHourly, HasBucket;
    var bs := Select(t.buckets, kind, Days(dates));
    GroupsCover(bs, pair);
    RowsOfMembers(t, kind, Groups(bs), None);
    if g :| g in Groups(bs) && g.date == pair.0 && g.id.agent == pair.1 {
      assert MetricRow(t, kind, g, None) in MetricRows(t, kind, Days(dates), None);
    }
  }

  lemma {:induction false} LegacyMembers(ls: seq<LegacyDay>, kind: Kind, source: Source, dates: seq<int>,
          skip: set<DayAgent>, joined: int)
    ensures forall r :: r in LegacyRows(ls, kind, source, dates, skip, joined) <==>
              exists l :: l in ls && Usable(kind, source, l, dates, joined) && Offer(kind, source, l).value == r && Pair(r) !in skip
  {
    hide Offer;
    if ls != [] {
      LegacyMembers(ls[..|ls| - 1], kind, source, dates, skip, joined);
      assert ls == ls[..|ls| - 1] + [ls[|ls| - 1]];
    }
  }

  lemma MetricRowsLabelled(t: Tables, kind: Kind, q: Query, since: Option<int>)
    ensures forall r :: r in MetricRows(t, kind, q, since) ==> r.kind == kind && r.source == Metrics
  {
    hide Select, Groups, LoadHourly, RowsOf;
    RowsOfMembers(t, kind, Groups(Select(t.buckets, kind, q)), since);
  }

  lemma LegacyCover(t: Tables, kind: Kind, source: Source, dates: seq<int>, skip: set<DayAgent>, joined: int,
          pair: DayAgent)
    requires pair !in skip
    ensures pair in Covered(LegacyRows(t.legacy, kind, source, dates, skip, joined))
       <==> HasLegacy(t, kind, source, dates, joined, pair)
  {
    hide Offer, LegacyRows;
    LegacyMembers(t.legacy, kind, source, dates, skip, joined);
    if l :| l in t.legacy && Usable(kind, source, l, dates, joined) && Pair(Offer(kind, source, l).value) == pair {
      assert Offer(kind, source, l).value in LegacyRows(t.legacy, kind, source, dates, skip, joined);
    }
  }

  lemma LegacyLabelled(t: Tables, kind: Kind, source: Source, dates: seq<int>, skip: set<DayAgent>, joined: int)
    ensures forall r :: r in LegacyRows(t.legacy, kind, source, dates, skip, joined) ==>
              r.kind == kind && r.source == source && Pair(r) !in skip
  {
    LegacyMembers(t.legacy, kind, source, dates, skip, joined);
  }

  /** Every row of a kind comes from the one source chosen for its day and agent. */
  lemma OneSource(t: Tables, kind: Kind, dates: seq<int>, joined: int, r: DayRow)
    requires r in KindRows(t, kind, dates, joined)
    ensures r.kind == kind && r.source == Chosen(t, kind, dates, joined, Pair(r))
  {
    hide MetricRows, LegacyRows, HasMetrics, HasLegacy, Covered;
    var v2 := MetricRows(t, kind, Days(dates), None);
    var pair := Pair(r);
    MetricsCover(t, kind, dates, pair);
    MetricRowsLabelled(t, kind, Days(dates), None);
    if kind == Usage {
      LegacyLabelled(t, kind, Models, dates, Covered(v2), joined);
      var models := LegacyRows(t.legacy, Usage, Models, dates, Covered(v2), joined);
      if pair !in Covered(v2) { LegacyCover(t, kind, Models, dates, Covered(v2), joined, pair); }
      LegacyLabelled(t, kind, Daily, dates, Covered(v2) + Covered(models), joined);
      InCovered(models, r);
    } else if kind == Activity {
      LegacyLabelled(t, kind, Daily, dates, Covered(v2), joined);
    } else if kind == Skill {
      LegacyLabelled(t, kind, Skills, dates, Covered(v2), joined);
    }
    InCovered(v2, r);
  }

  lemma InCovered(rows: seq<DayRow>, r: DayRow)
    ensures r in rows ==> Pair(r) in Covered(rows)
  {
  }

  // ----- no double counting -------------------------------------------------------------------

  /** What the usable rows of a legacy source hold for a day and agent. */
  function LegacyHeld(ls: seq<LegacyDay>, kind: Kind, source: Source, dates: seq<int>, joined: int,
          pair: DayAgent): Sums {
    if ls == [] then Nothing() else
      var l := ls[|ls| - 1];
      var held := LegacyHeld(ls[..|ls| - 1], kind, source, dates, joined, pair);
      if Usable(kind, source, l, dates, joined) && Pair(Offer(kind, source, l).value) == pair
      then Plus(held, Offer(kind, source, l).value.sums) else held
  }

  /** What a source holds for a day and agent. */
  function SourceTotal(t: Tables, kind: Kind, source: Source, dates: seq<int>, joined: int, pair: DayAgent): Sums {
    if source == Metrics then BucketTotal(Select(t.buckets, kind, Days(dates)), ByAgent(pair.0, pair.1))
    else LegacyHeld(t.legacy, kind, source, dates, joined, pair)
  }

  lemma OfferLabelled(kind: Kind, source: Source, l: LegacyDay)
    ensures var offer := Offer(kind, source, l);
            offer.Some? ==> offer.value.kind == kind && offer.value.source == source && offer.value.date == l.date
  {
  }

  lemma {:induction false} LegacyTotal(ls: seq<LegacyDay>, kind: Kind, source: Source, dates: seq<int>,
          skip: set<DayAgent>, joined: int, pair: DayAgent)
    ensures RowTotal(LegacyRows(ls, kind, source, dates, skip, joined), kind, ByAgent(pair.0, pair.1))
         == if pair in skip then Nothing() else LegacyHeld(ls, kind, source, dates, joined, pair)
  {
    hide Plus, Nothing, Offer, RowTotal;
    if ls != [] {
      var (front, l) := (ls[..|ls| - 1], ls[|ls| - 1]);
      LegacyTotal(front, kind, source, dates, skip, joined, pair);
      OfferLabelled(kind, source, l);
      var rows := LegacyRows(front, kind, source, dates, skip, joined);
      if Usable(kind, source, l, dates, joined) {
        RowTotalSnoc(rows, Offer(kind, source, l).value, kind, ByAgent(pair.0, pair.1));
      }
      PlusLaws(RowTotal(rows, kind, ByAgent(pair.0, pair.1)), Nothing(), Nothing());
    } else {
      RowTotalNone(kind, ByAgent(pair.0, pair.1));
    }
  }

  lemma {:induction false} NoneHeld(ls: seq<LegacyDay>, kind: Kind, source: Source, dates: seq<int>, joined: int,
          pair: DayAgent)
    requires forall l :: l in ls && Usable(kind, source, l, dates, joined) ==> Pair(Offer(kind, source, l).value) != pair
    ensures LegacyHeld(ls, kind, source, dates, joined, pair) == Nothing()
  {
    hide Nothing, Offer;
    if ls != [] {
      NoneHeld(ls[..|ls| - 1], kind, source, dates, joined, pair);
      assert ls[|ls| - 1] in ls;
    }
  }

  lemma {:induction false} NoBucketTotal(bs: seq<Bucket>, pair: DayAgent)
    requires forall b :: b in bs ==> BucketPair(b) != pair
    ensures BucketTotal(bs, ByAgent(pair.0, pair.1)) == Nothing()
  {
    hide Plus, Nothing, DateOf;
    if bs != [] {
      PlusLaws(Nothing(), Nothing(), Nothing());
      NoBucketTotal(bs[..|bs| - 1], pair);
      assert bs[|bs| - 1] in bs && BucketPair(bs[|bs| - 1]) != pair;
    }
  }

  lemma MetricRowsTotal(t: Tables, kind: Kind, q: Query, since: Option<int>, cell: Cell)
    ensures RowTotal(MetricRows(t, kind, q, since), kind, cell) == BucketTotal(Select(t.buckets, kind, q), cell)
  {
    var bs := Select(t.buckets, kind, q);
    MetricTotal(t, kind, Groups(bs), since, cell);
    GroupsTotal(bs, cell);
  }

  lemma LegacySourceTotal(t: Tables, kind: Kind, source: Source, dates: seq<int>, skip: set<DayAgent>, joined: int,
          pair: DayAgent)
    requires source != Metrics
    ensures RowTotal(LegacyRows(t.legacy, kind, source, dates, skip, joined), kind, ByAgent(pair.0, pair.1))
         == if pair in skip then Nothing() else SourceTotal(t, kind, source, dates, joined, pair)
    ensures !HasLegacy(t, kind, source, dates, joined, pair) ==>
              SourceTotal(t, kind, source, dates, joined, pair) == Nothing()
  {
    hide Offer, LegacyRows, RowTotal, LegacyHeld;
    LegacyTotal(t.legacy, kind, source, dates, skip, joined, pair);
    if !HasLegacy(t, kind, source, dates, joined, pair) {
      NoneHeld(t.legacy, kind, source, dates, joined, pair);
    }
  }

  lemma MetricSourceTotal(t: Tables, kind: Kind, dates: seq<int>, joined: int, pair: DayAgent)
    ensures RowTotal(MetricRows(t, kind, Days(dates), None), kind, ByAgent(pair.0, pair.1))
         == SourceTotal(t, kind, Metrics, dates, joined, pair)
    ensures !HasMetrics(t, kind, dates, pair) ==>
              SourceTotal(t, kind, Metrics, dates, joined, pair) == Nothing()
  {
    hide Select, MetricRows, RowTotal, BucketTotal;
    MetricRowsTotal(t, kind, Days(dates), None, ByAgent(pair.0, pair.1));
    if !HasMetrics(t, kind, dates, pair) { NoBucketTotal(Select(t.buckets, kind, Days(dates)), pair); }
  }

  lemma UsageTotal(t: Tables, dates: seq<int>, joined: int, pair: DayAgent)
    ensures RowTotal(KindRows(t, Usage, dates, joined), Usage, ByAgent(pair.0, pair.1))
         == SourceTotal(t, Usage, Chosen(t, Usage, dates, joined, pair), dates, joined, pair)
  {
    hide MetricRows, LegacyRows, RowTotal, SourceTotal, HasMetrics, HasLegacy, Covered, Plus, Nothing;
    var cell := ByAgent(pair.0, pair.1);
    var v2 := MetricRows(t, Usage, Days(dates), None);
    var models := LegacyRows(t.legacy, Usage, Models, dates, Covered(v2), joined);
    var daily := LegacyRows(t.legacy, Usage, Daily, dates, Covered(v2) + Covered(models), joined);
    MetricsCover(t, Usage, dates, pair);
    MetricSourceTotal(t, Usage, dates, joined, pair);
    if pair !in Covered(v2) { LegacyCover(t, Usage, Models, dates, Covered(v2), joined, pair); }
    LegacySourceTotal(t, Usage, Models, dates, Covered(v2), joined, pair);
    LegacySourceTotal(t, Usage, Daily, dates, Covered(v2) + Covered(models), joined, pair);
    RowTotalConcat(v2, models, Usage, cell);
    RowTotalConcat(v2 + models, daily, Usage, cell);
    PlusLaws(RowTotal(v2, Usage, cell), Nothing(), Nothing());
    PlusLaws(RowTotal(models, Usage, cell), Nothing(), Nothing());
    PlusLaws(RowTotal(daily, Usage, cell), Nothing(), Nothing());
  }

  lemma OtherTotal(t: Tables, kind: Kind, dates: seq<int>, joined: int, pair: DayAgent)
    requires kind != Usage
    ensures RowTotal(KindRows(t, kind, dates, joined), kind, ByAgent(pair.0, pair.1))
         == SourceTotal(t, kind, Chosen(t, kind, dates, joined, pair), dates, joined, pair)
  {
    hide MetricRows, LegacyRows, RowTotal, SourceTotal, HasMetrics, Covered, Plus, Nothing;
    var cell := ByAgent(pair.0, pair.1);
    var v2 := MetricRows(t, kind, Days(dates), None);
    var source := if kind == Skill then Skills else Daily;
    var legacy := LegacyRows(t.legacy, kind, source, dates, Covered(v2), joined);
    MetricsCover(t, kind, dates, pair);
    MetricSourceTotal(t, kind, dates, joined, pair);
    LegacySourceTotal(t, kind, source, dates, Covered(v2), joined, pair);
    RowTotalConcat(v2, legacy, kind, cell);
    PlusLaws(RowTotal(v2, kind, cell), Nothing(), Nothing());
    PlusLaws(RowTotal(legacy, kind, cell), Nothing(), Nothing());
    if kind == Cost { NoCostLegacy(t, dates, joined, pair); }
  }

  lemma NoCostLegacy(t: Tables, dates: seq<int>, joined: int, pair: DayAgent)
    ensures SourceTotal(t, Cost, Daily, dates, joined, pair) == Nothing()
  {
    NoneHeld(t.legacy, Cost, Daily, dates, joined, pair);
  }

  lemma KindRowsLabelled(t: Tables, kind: Kind, dates: seq<int>, joined: int)
    ensures OfKind(KindRows(t, kind, dates, joined), kind)
  {
    hide KindRows;
    forall r | r in KindRows(t, kind, dates, joined) ensures r.kind == kind { OneSource(t, kind, dates, joined, r); }
  }

  /** No double counting: what the rows of a kind report for a day and agent is what
      exactly one source holds for them, whatever the three sources overlap in. */
  lemma NoDoubleCounting(t: Tables, kind: Kind, dates: seq<int>, joined: int, pair: DayAgent)
    ensures RowTotal(PersonalDays(t, dates, joined), kind, ByAgent(pair.0, pair.1))
         == SourceTotal(t, kind, Chosen(t, kind, dates, joined, pair), dates, joined, pair)
  {
    hide KindRows, RowTotal, SourceTotal, Chosen, Plus, Nothing;
    var cell := ByAgent(pair.0, pair.1);
    var (u, a, c, s) := (KindRows(t, Usage, dates, joined), KindRows(t, Activity, dates, joined),
                         KindRows(t, Cost, dates, joined), KindRows(t, Skill, dates, joined));
    KindRowsLabelled(t, Usage, dates, joined);
    KindRowsLabelled(t, Activity, dates, joined);
    KindRowsLabelled(t, Cost, dates, joined);
    KindRowsLabelled(t, Skill, dates, joined);
    RowTotalConcat(u, a, kind, cell);
    RowTotalConcat(u + a, c, kind, cell);
    RowTotalConcat(u + a + c, s, kind, cell);
    if kind != Usage { OtherKindTotal(u, kind, Usage, cell); OtherTotal(t, kind, dates, joined, pair); }
    if kind != Activity { OtherKindTotal(a, kind, Activity, cell); }
    if kind != Cost { OtherKindTotal(c, kind, Cost, cell); }
    if kind != Skill { OtherKindTotal(s, kind, Skill, cell); }
    if kind == Usage { UsageTotal(t, dates, joined, pair); }
    PlusLaws(RowTotal(KindRows(t, kind, dates, joined), kind, cell), Nothing(), Nothing());
    PlusLaws(Nothing(), Nothing(), Nothing());
  }
}
