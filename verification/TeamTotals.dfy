/** What a refresh leaves in the table, summed over any scan of it: the totals of the
    chosen sources, less exactly the rows that shared a key with a later one. */
module TeamTotals {
  import opened Decimal
  import opened Rolling
  import opened Projection
  import opened Attribution
  import opened TeamDays

  /** Every row is stored under its own key. */
  ghost predicate Keyed(rows: Rows) {
    forall id :: id in rows ==> IdOf(id.contributor, rows[id].row) == id
  }

  lemma {:induction false} UpsertsKeyed(rows: Rows, team: string, contributor: string, rs: seq<NewRow>, now: int)
    requires Keyed(rows)
    ensures Keyed(Upserts(rows, team, contributor, rs, now))
  {
    hide KeyOf;
    if rs != [] { UpsertsKeyed(rows, team, contributor, rs[..|rs| - 1], now); }
  }

  /** Replacement keeps every row under its own key. */
  lemma ReplacedKeyed(rows: Rows, team: string, contributor: string, dates: seq<int>, rs: seq<NewRow>, now: int)
    requires Keyed(rows)
    ensures Keyed(Replaced(rows, team, contributor, dates, rs, now))
  {
    hide IdOf;
    assert Keyed(SoftDeleted(rows, contributor, dates, now));
    UpsertsKeyed(SoftDeleted(rows, contributor, dates, now), team, contributor, rs, now);
  }

  // ----- sums over a scan -------------------------------------------------------------

  /** A scan visits every key of the table once. */
  ghost predicate Scan(order: seq<RowId>, rows: Rows) {
    Distinct(order) && forall id :: id in rows <==> id in order
  }

  predicate Distinct(order: seq<RowId>) { forall i, j :: 0 <= i < j < |order| ==> order[i] != order[j] }

  function Part(r: Option<DayRow>, kind: Kind, cell: Cell): Sums {
    match r
    case None => Nothing()
    case Some(row) => When(row.kind == kind && In(cell, row.date, row.id), row.sums)
  }

  /** The live rows of a contributor, summed. */
  function StoredTotal(order: seq<RowId>, rows: Rows, contributor: string, kind: Kind, cell: Cell): Sums {
    if order == [] then Nothing() else
      var id := order[|order| - 1];
      Plus(StoredTotal(order[..|order| - 1], rows, contributor, kind, cell),
           Part(if id.contributor == contributor then Live(rows, id) else None, kind, cell))
  }

  /** The rows that win their keys, summed. */
  function WonTotal(order: seq<RowId>, rs: seq<NewRow>, contributor: string, kind: Kind, cell: Cell): Sums {
    if order == [] then Nothing() else
      Plus(WonTotal(order[..|order| - 1], rs, contributor, kind, cell),
           Part(Last(rs, contributor, order[|order| - 1]), kind, cell))
  }

  /** The supplied rows that a later one of the same key replaces. */
  function Lost(rs: seq<NewRow>, contributor: string): seq<DayRow> {
    if rs == [] then [] else
      var front := rs[..|rs| - 1];
      Lost(front, contributor)
      + (match Last(front, contributor, IdOf(contributor, rs[|rs| - 1].row)) case None => [] case Some(r) => [r])
  }

  function RowsIn(rs: seq<NewRow>): seq<DayRow> {
    if rs == [] then [] else RowsIn(rs[..|rs| - 1]) + [rs[|rs| - 1].row]
  }

  lemma SwapParts(a: Sums, b: Sums, a': Sums, x: Sums, y: Sums)
    requires Plus(a', x) == Plus(a, y)
    ensures Plus(Plus(a', b), x) == Plus(Plus(a, b), y)
  {
  }

  lemma ExchangePart(a: Sums, x: Sums, y: Sums)
    ensures Plus(Plus(a, y), x) == Plus(Plus(a, x), y)
  {
  }

  lemma LastSnoc(rs: seq<NewRow>, r: NewRow, contributor: string, id: RowId)
    ensures Last(rs + [r], contributor, id) == if IdOf(contributor, r.row) == id then Some(r.row) else Last(rs, contributor, id)
  {
    hide IdOf;
    assert (rs + [r])[..|rs|] == rs;
  }

  /** One more row exchanges what its key contributed. */
  lemma {:induction false} WonSnoc(order: seq<RowId>, rs: seq<NewRow>, r: NewRow, contributor: string, kind: Kind, cell: Cell)
    requires Distinct(order)
    ensures var id := IdOf(contributor, r.row);
            var before, after := WonTotal(order, rs, contributor, kind, cell), WonTotal(order, rs + [r], contributor, kind, cell);
            if id in order then Plus(after, Part(Last(rs, contributor, id), kind, cell)) == Plus(before, Part(Some(r.row), kind, cell))
            else after == before
  {
    hide IdOf, Last, Plus, Part;
    if order != [] {
      var (front, last) := (order[..|order| - 1], order[|order| - 1]);
      var id := IdOf(contributor, r.row);
      assert order == front + [last];
      WonSnoc(front, rs, r, contributor, kind, cell);
      LastSnoc(rs, r, contributor, last);
      var a, a' := WonTotal(front, rs, contributor, kind, cell), WonTotal(front, rs + [r], contributor, kind, cell);
      var x, y := Part(Last(rs, contributor, id), kind, cell), Part(Some(r.row), kind, cell);
      if id in front {
        assert last != id;
        SwapParts(a, Part(Last(rs, contributor, last), kind, cell), a', x, y);
      } else if last == id {
        ExchangePart(a, x, y);
      }
    }
  }

  /** The rows that win and the rows that lose are all the rows. */
  lemma {:induction false} WonAndLost(order: seq<RowId>, rs: seq<NewRow>, contributor: string, kind: Kind, cell: Cell)
    requires Distinct(order) && forall r :: r in rs ==> IdOf(contributor, r.row) in order
    ensures Plus(WonTotal(order, rs, contributor, kind, cell), RowTotal(Lost(rs, contributor), kind, cell))
         == RowTotal(RowsIn(rs), kind, cell)
  {
    hide IdOf, Last, Plus, Nothing, Part, In;
    if rs == [] {
      NothingWon(order, contributor, kind, cell);
      RowTotalNone(kind, cell);
      PlusLaws(Nothing(), Nothing(), Nothing());
    } else {
      var (front, r) := (rs[..|rs| - 1], rs[|rs| - 1]);
      var id := IdOf(contributor, r.row);
      assert rs == front + [r];
      WonAndLost(order, front, contributor, kind, cell);
      WonSnoc(order, front, r, contributor, kind, cell);
      RowTotalSnoc(RowsIn(front), r.row, kind, cell);
      LostSnoc(front, r, contributor, kind, cell);
      BalanceKept(WonTotal(order, front, contributor, kind, cell), WonTotal(order, rs, contributor, kind, cell),
                  RowTotal(Lost(front, contributor), kind, cell), Part(Last(front, contributor, id), kind, cell),
                  Part(Some(r.row), kind, cell), RowTotal(RowsIn(front), kind, cell));
      assert Part(Some(r.row), kind, cell) == When(r.row.kind == kind && In(cell, r.row.date, r.row.id), r.row.sums) by { PartOfRow(r.row, kind, cell); }
    }
  }

  lemma PartOfRow(r: DayRow, kind: Kind, cell: Cell)
    ensures Part(Some(r), kind, cell) == When(r.kind == kind && In(cell, r.date, r.id), r.sums)
  {
  }

  lemma BalanceKept(won: Sums, won': Sums, lost: Sums, gone: Sums, came: Sums, all: Sums)
    requires Plus(won', gone) == Plus(won, came) && Plus(won, lost) == all
    ensures Plus(won', Plus(lost, gone)) == Plus(all, came)
  {
  }

  lemma LostSnoc(front: seq<NewRow>, r: NewRow, contributor: string, kind: Kind, cell: Cell)
    ensures RowTotal(Lost(front + [r], contributor), kind, cell)
         == Plus(RowTotal(Lost(front, contributor), kind, cell), Part(Last(front, contributor, IdOf(contributor, r.row)), kind, cell))
  {
    hide IdOf, Last, Plus, In, Nothing, RowTotal;
    assert (front + [r])[..|front|] == front;
    var lost, replaced := Lost(front, contributor), Last(front, contributor, IdOf(contributor, r.row));
    if replaced.None? {
      assert lost + [] == lost;
      PlusLaws(RowTotal(lost, kind, cell), Nothing(), Nothing());
    } else {
      RowTotalSnoc(lost, replaced.value, kind, cell);
    }
  }

  lemma {:induction false} NothingWon(order: seq<RowId>, contributor: string, kind: Kind, cell: Cell)
    ensures WonTotal(order, [], contributor, kind, cell) == Nothing()
  {
    hide Plus, Nothing;
    if order != [] {
      NothingWon(order[..|order| - 1], contributor, kind, cell);
      PlusLaws(Nothing(), Nothing(), Nothing());
    }
  }

  // ----- what a replacement stores ------------------------------------------------------

  /** On a replaced date the live rows are the rows that won. */
  lemma LiveIsLast(rows: Rows, team: string, contributor: string, dates: seq<int>, rs: seq<NewRow>, now: int, id: RowId,
          kind: Kind, cell: Cell)
    requires Keyed(rows) && cell.date in dates && forall r :: r in rs ==> r.row.date in dates
    ensures var live := Live(Replaced(rows, team, contributor, dates, rs, now), id);
            Part(if id.contributor == contributor then live else None, kind, cell) == Part(Last(rs, contributor, id), kind, cell)
  {
    hide KeyOf;
    ReplaceUpdatesMap(rows, team, contributor, dates, rs, now, id);
    LastMeans(rs, contributor, id);
    hide Replaced, Last;
  }

  lemma {:induction false} StoredIsWon(order: seq<RowId>, rows: Rows, team: string, contributor: string, dates: seq<int>,
          rs: seq<NewRow>, now: int, kind: Kind, cell: Cell)
    requires Keyed(rows) && cell.date in dates && forall r :: r in rs ==> r.row.date in dates
    ensures StoredTotal(order, Replaced(rows, team, contributor, dates, rs, now), contributor, kind, cell)
         == WonTotal(order, rs, contributor, kind, cell)
  {
    hide Replaced, Part, Live, Last, Plus, Keyed;
    if order != [] {
      StoredIsWon(order[..|order| - 1], rows, team, contributor, dates, rs, now, kind, cell);
      LiveIsLast(rows, team, contributor, dates, rs, now, order[|order| - 1], kind, cell);
    }
  }

  /** A replacement stores all it was supplied with, less the rows whose key a later
      row took. */
  lemma StoredPlusLost(order: seq<RowId>, rows: Rows, team: string, contributor: string, dates: seq<int>, rs: seq<NewRow>,
          now: int, kind: Kind, cell: Cell)
    requires Keyed(rows) && cell.date in dates && forall r :: r in rs ==> r.row.date in dates
    requires Scan(order, Replaced(rows, team, contributor, dates, rs, now))
    ensures Plus(StoredTotal(order, Replaced(rows, team, contributor, dates, rs, now), contributor, kind, cell),
                 RowTotal(Lost(rs, contributor), kind, cell))
         == RowTotal(RowsIn(rs), kind, cell)
  {
    hide Replaced, Part, IdOf, Plus, Keyed, StoredTotal, WonTotal, RowTotal;
    StoredIsWon(order, rows, team, contributor, dates, rs, now, kind, cell);
    forall r | r in rs ensures IdOf(contributor, r.row) in order {
      SuppliedIsStored(rows, team, contributor, dates, rs, now, r);
    }
    WonAndLost(order, rs, contributor, kind, cell);
  }

  lemma SuppliedIsStored(rows: Rows, team: string, contributor: string, dates: seq<int>, rs: seq<NewRow>, now: int, r: NewRow)
    requires r in rs && forall r :: r in rs ==> r.row.date in dates
    ensures IdOf(contributor, r.row) in Replaced(rows, team, contributor, dates, rs, now)
  {
    hide KeyOf, Replaced;
    ReplaceUpdatesMap(rows, team, contributor, dates, rs, now, IdOf(contributor, r.row));
    LastMeans(rs, contributor, IdOf(contributor, r.row));
  }

  // ----- what a refresh stores ------------------------------------------------------------

  function AllValid(rows: seq<DayRow>): (rs: seq<NewRow>)
    ensures |rs| == |rows| && forall i :: 0 <= i < |rs| ==> rs[i] == NewRow(rows[i], true)
  {
    seq(|rows|, i requires 0 <= i < |rows| => NewRow(rows[i], true))
  }

  lemma {:induction false} RowsInAll(rows: seq<DayRow>)
    ensures RowsIn(AllValid(rows)) == rows
  {
    if rows != [] {
      var front := rows[..|rows| - 1];
      assert AllValid(rows)[..|rows| - 1] == AllValid(front);
      RowsInAll(front);
      assert rows == front + [rows[|rows| - 1]];
    }
  }

  lemma {:induction false} OtherDateTotal(rows: seq<DayRow>, kind: Kind, cell: Cell)
    requires forall r :: r in rows ==> r.date != cell.date
    ensures RowTotal(rows, kind, cell) == Nothing()
  {
    hide Plus, Nothing;
    if rows != [] {
      OtherDateTotal(rows[..|rows| - 1], kind, cell);
      PlusLaws(Nothing(), Nothing(), Nothing());
    }
  }

  lemma JoinDayDates(t: Tables, joined: int, r: DayRow)
    requires r in JoinDayHours(t, joined)
    ensures r.date == DateOf(joined)
  {
    hide MetricRows, DateOf;
    var q := Hours(joined, DayStart(DateOf(joined)) + DAY);
    var kind := if r in MetricRows(t, Usage, q, Some(joined)) then Usage
                else if r in MetricRows(t, Activity, q, Some(joined)) then Activity
                else if r in MetricRows(t, Cost, q, Some(joined)) then Cost else Skill;
    MetricDates(t, kind, q, Some(joined), r);
    forall b: Bucket ensures Hit(q, kind, b) ==> DateOf(b.start) == DateOf(joined) {
      DayBounds(joined, DateOf(joined));
      DayBounds(b.start, DateOf(joined));
    }
  }

  /** The rows of a refresh total what the chosen source holds, on every day after the join. */
  lemma RefreshTotal(t: Tables, dates: seq<int>, joined: int, kind: Kind, pair: DayAgent)
    requires pair.0 in After(dates, DateOf(joined))
    ensures var after := After(dates, DateOf(joined));
            RowTotal(Refresh(t, dates, joined).1, kind, ByAgent(pair.0, pair.1))
            == SourceTotal(t, kind, Chosen(t, kind, after, joined, pair), after, joined, pair)
  {
    hide PersonalDays, JoinDayHours, RowTotal, SourceTotal, Chosen, Plus, Nothing, DateOf;
    var after, cell := After(dates, DateOf(joined)), ByAgent(pair.0, pair.1);
    var days, hours := PersonalDays(t, after, joined), JoinDayHours(t, joined);
    NoDoubleCounting(t, kind, after, joined, pair);
    forall r | r in hours ensures r.date != cell.date { JoinDayDates(t, joined, r); }
    OtherDateTotal(hours, kind, cell);
    RowTotalConcat(days, hours, kind, cell);
    PlusLaws(RowTotal(days, kind, cell), Nothing(), Nothing());
    assert days + [] == days;
  }

  /** The table after a refresh: for every day after the join, kind and agent, the
      member's live rows and the rows lost to a shared key together report exactly
      what the chosen source holds. */
  lemma RefreshStores(order: seq<RowId>, rows: Rows, team: string, contributor: string, t: Tables, dates: seq<int>,
          joined: int, now: int, kind: Kind, pair: DayAgent)
    requires Keyed(rows) && pair.0 in After(dates, DateOf(joined))
    requires var (replaced, supplied) := Refresh(t, dates, joined);
             Scan(order, Replaced(rows, team, contributor, replaced, AllValid(supplied), now))
    ensures var (replaced, supplied) := Refresh(t, dates, joined);
            var (table, after) := (Replaced(rows, team, contributor, replaced, AllValid(supplied), now), After(dates, DateOf(joined)));
            Plus(StoredTotal(order, table, contributor, kind, ByAgent(pair.0, pair.1)),
                 RowTotal(Lost(AllValid(supplied), contributor), kind, ByAgent(pair.0, pair.1)))
            == SourceTotal(t, kind, Chosen(t, kind, after, joined, pair), after, joined, pair)
  {
    hide Replaced, RowTotal, SourceTotal, Chosen, Plus, DateOf, Keyed, Scan, PersonalDays, JoinDayHours, StoredTotal, Lost;
    var (replaced, supplied) := Refresh(t, dates, joined);
    var rs := AllValid(supplied);
    forall r | r in rs ensures r.row.date in replaced { RefreshStaysInDates(t, dates, joined, r.row); }
    StoredPlusLost(order, rows, team, contributor, replaced, rs, now, kind, ByAgent(pair.0, pair.1));
    RowsInAll(supplied);
    RefreshTotal(t, dates, joined, kind, pair);
  }

  /** Nothing is lost exactly when no two supplied rows share a date and trimmed key. */
  lemma {:induction false} NothingLostExactly(rs: seq<NewRow>, contributor: string)
    ensures Lost(rs, contributor) == [] <==>
            forall i, j :: 0 <= i < j < |rs| ==> IdOf(contributor, rs[i].row) != IdOf(contributor, rs[j].row)
  {
    hide IdOf;
    if rs != [] {
      var (front, r) := (rs[..|rs| - 1], rs[|rs| - 1]);
      NothingLostExactly(front, contributor);
      LastMeans(front, contributor, IdOf(contributor, r.row));
      hide Last;
      assert forall i, j :: 0 <= i < j < |front| ==> front[i] == rs[i] && front[j] == rs[j];
      if x :| x in front && IdOf(contributor, x.row) == IdOf(contributor, r.row) {
        var i :| 0 <= i < |front| && front[i] == x;
        assert rs[i] == x;
      }
    }
  }

  /** So without shared keys the table reports what the chosen source holds. */
  lemma DistinctKeysStoreAll(order: seq<RowId>, rows: Rows, team: string, contributor: string, t: Tables, dates: seq<int>,
          joined: int, now: int, kind: Kind, pair: DayAgent)
    requires Keyed(rows) && pair.0 in After(dates, DateOf(joined))
    requires var (replaced, supplied) := Refresh(t, dates, joined);
             && Scan(order, Replaced(rows, team, contributor, replaced, AllValid(supplied), now))
             && forall i, j :: 0 <= i < j < |supplied| ==> IdOf(contributor, supplied[i]) != IdOf(contributor, supplied[j])
    ensures var (replaced, supplied) := Refresh(t, dates, joined);
            var (table, after) := (Replaced(rows, team, contributor, replaced, AllValid(supplied), now), After(dates, DateOf(joined)));
            StoredTotal(order, table, contributor, kind, ByAgent(pair.0, pair.1))
            == SourceTotal(t, kind, Chosen(t, kind, after, joined, pair), after, joined, pair)
  {
    hide Replaced, RowTotal, SourceTotal, Chosen, Plus, DateOf, Keyed, Scan, Refresh, StoredTotal, Lost, IdOf, Nothing;
    var (replaced, supplied) := Refresh(t, dates, joined);
    var (table, cell) := (Replaced(rows, team, contributor, replaced, AllValid(supplied), now), ByAgent(pair.0, pair.1));
    RefreshStores(order, rows, team, contributor, t, dates, joined, now, kind, pair);
    NothingLostExactly(AllValid(supplied), contributor);
    RowTotalNone(kind, cell);
    PlusLaws(StoredTotal(order, table, contributor, kind, cell), Nothing(), Nothing());
  }
}
