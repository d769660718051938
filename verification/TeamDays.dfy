/** Replacing a contributor's day rows: soft delete, then upsert on the unique key. */
module TeamDays {
  import opened Decimal
  import opened Rolling
  import opened Projection
  import opened Attribution
  import opened JoinCut
  import Splitter

  /** The dimensions a row key digests, trimmed; an absent one is empty. SHA-256 and
      the JSON text it is taken of are injective here. */
  datatype Key = Key(kind: Kind, agent: string, provider: string, model: string, currency: string, skill: int)

  /** The unique key of the table. */
  datatype RowId = RowId(contributor: string, date: int, key: Key)

  datatype Stored = Stored(team: string, created: int, updated: int, deleted: Option<int>, row: DayRow)

  datatype NewRow = NewRow(row: DayRow, valid: bool)

  type Rows = map<RowId, Stored>

  function KeyOf(r: DayRow): Key {
    Key(r.kind, Splitter.Trim(r.id.agent), Splitter.Trim(r.id.provider), Splitter.Trim(r.id.model),
        Splitter.Trim(r.id.currency), r.id.skill)
  }

  function IdOf(contributor: string, r: DayRow): RowId { RowId(contributor, r.date, KeyOf(r)) }

  function SoftDeleted(rows: Rows, contributor: string, dates: seq<int>, now: int): Rows {
    map id | id in rows ::
      if id.contributor == contributor && id.date in dates && rows[id].deleted.None?
      then rows[id].(deleted := Some(now), updated := now) else rows[id]
  }

  function Upsert(rows: Rows, team: string, id: RowId, r: DayRow, now: int): Rows {
    rows[id := if id in rows then rows[id].(updated := now, deleted := None, row := r) else Stored(team, now, now, None, r)]
  }

  function Upserts(rows: Rows, team: string, contributor: string, rs: seq<NewRow>, now: int): Rows {
    if rs == [] then rows else
      var r := rs[|rs| - 1].row;
      Upsert(Upserts(rows, team, contributor, rs[..|rs| - 1], now), team, IdOf(contributor, r), r, now)
  }

  lemma NoUpserts(rows: Rows, team: string, contributor: string, now: int)
    ensures Upserts(rows, team, contributor, [], now) == rows
  {
  }

  lemma UpsertsSnoc(rows: Rows, team: string, contributor: string, rs: seq<NewRow>, r: NewRow, now: int)
    ensures Upserts(rows, team, contributor, rs + [r], now)
         == Upsert(Upserts(rows, team, contributor, rs, now), team, IdOf(contributor, r.row), r.row, now)
  {
    hide Upsert, IdOf;
    assert (rs + [r])[..|rs|] == rs;
  }

  function Replaced(rows: Rows, team: string, contributor: string, dates: seq<int>, rs: seq<NewRow>, now: int): Rows {
    Upserts(SoftDeleted(rows, contributor, dates, now), team, contributor, rs, now)
  }

  class TeamStore {
    var rows: Rows
    var revisions: map<string, nat>

    /** Stops at the first row that fails validation, whose transaction the caller
        rolls back; with no dates it does nothing at all. */
    method ReplaceTeamMemberDays(team: string, contributor: string, dates: seq<int>, rs: seq<NewRow>, now: int)
      returns (ok: bool, done: nat)
      modifies this
      ensures done <= |rs|
      ensures ok <==> dates == [] || forall r :: r in rs ==> r.valid
      ensures dates == [] ==> rows == old(rows) && revisions == old(revisions)
      ensures dates != [] ==> rows == Replaced(old(rows), team, contributor, dates, rs[..done], now)
      ensures dates != [] && ok ==>
        done == |rs| && revisions == old(revisions)[team := if team in old(revisions) then old(revisions)[team] + 1 else 1]
      ensures !ok ==> done < |rs| && !rs[done].valid && revisions == old(revisions)
    {
      hide Upsert, SoftDeleted, IdOf, Upserts;
      if dates == [] { return true, 0; }
      NoUpserts(SoftDeleted(rows, contributor, dates, now), team, contributor, now);
      rows := SoftDeleted(rows, contributor, dates, now);
      done := 0;
      while done < |rs|
        invariant done <= |rs| && revisions == old(revisions)
        invariant forall r :: r in rs[..done] ==> r.valid
        invariant rows == Upserts(SoftDeleted(old(rows), contributor, dates, now), team, contributor, rs[..done], now)
      {
        if !rs[done].valid { return false, done; }
        assert rs[..done + 1] == rs[..done] + [rs[done]];
        UpsertsSnoc(SoftDeleted(old(rows), contributor, dates, now), team, contributor, rs[..done], rs[done], now);
        rows := Upsert(rows, team, IdOf(contributor, rs[done].row), rs[done].row, now);
        done := done + 1;
      }
      assert rs[..|rs|] == rs;
      revisions := revisions[team := if team in revisions then revisions[team] + 1 else 1];
      ok := true;
    }
  }

  // ----- the map it updates -----------------------------------------------------------

  function Live(rows: Rows, id: RowId): Option<DayRow> {
    if id in rows && rows[id].deleted.None? then Some(rows[id].row) else None
  }

  /** The last supplied row for an identity. */
  function Last(rs: seq<NewRow>, contributor: string, id: RowId): Option<DayRow> {
    if rs == [] then None
    else if IdOf(contributor, rs[|rs| - 1].row) == id then Some(rs[|rs| - 1].row)
    else Last(rs[..|rs| - 1], contributor, id)
  }

  lemma {:induction false} UpsertsAt(rows: Rows, team: string, contributor: string, rs: seq<NewRow>, now: int,
          id: RowId)
    ensures var (after, last) := (Upserts(rows, team, contributor, rs, now), Last(rs, contributor, id));
            if last.None? then (id in after <==> id in rows) && (id in rows ==> after[id] == rows[id])
            else id in after && after[id] == (if id in rows then rows[id].(updated := now, deleted := None, row := last.value)
                                              else Stored(team, now, now, None, last.value))
  {
    hide KeyOf;
    if rs != [] { UpsertsAt(rows, team, contributor, rs[..|rs| - 1], now, id); }
  }

  /** Replacement is a map update: on the given dates the contributor's live rows are
      exactly the supplied ones, the last one winning a shared key; every other date
      and contributor keeps what it had. */
  lemma ReplaceUpdatesMap(rows: Rows, team: string, contributor: string, dates: seq<int>, rs: seq<NewRow>, now: int,
          id: RowId)
    requires forall r :: r in rs ==> r.row.date in dates
    ensures Live(Replaced(rows, team, contributor, dates, rs, now), id)
         == if id.contributor == contributor && id.date in dates then Last(rs, contributor, id) else Live(rows, id)
    ensures id.contributor != contributor || id.date !in dates ==>
              var after := Replaced(rows, team, contributor, dates, rs, now);
              (id in after <==> id in rows) && (id in rows ==> after[id] == rows[id])
  {
    hide KeyOf;
    UpsertsAt(SoftDeleted(rows, contributor, dates, now), team, contributor, rs, now, id);
    LastMeans(rs, contributor, id);
  }

  lemma {:induction false} LastMeans(rs: seq<NewRow>, contributor: string, id: RowId)
    ensures Last(rs, contributor, id).Some? <==> exists r :: r in rs && IdOf(contributor, r.row) == id
    ensures Last(rs, contributor, id).Some? ==> IdOf(contributor, Last(rs, contributor, id).value) == id
  {
    hide KeyOf;
    if rs != [] {
      LastMeans(rs[..|rs| - 1], contributor, id);
      assert rs == rs[..|rs| - 1] + [rs[|rs| - 1]];
    }
  }

  /** Nothing is ever removed from the table, and a creation time never changes. */
  lemma NothingRemoved(rows: Rows, team: string, contributor: string, dates: seq<int>, rs: seq<NewRow>, now: int,
          id: RowId)
    requires id in rows
    ensures var after := Replaced(rows, team, contributor, dates, rs, now);
            id in after && after[id].created == rows[id].created && after[id].team == rows[id].team
  {
    UpsertsAt(SoftDeleted(rows, contributor, dates, now), team, contributor, rs, now, id);
  }

  /** Repeating a replacement changes update times only: the same rows exist with the
      same contents, creation and deletion times. */
  lemma RepeatChangesTimesOnly(rows: Rows, team: string, contributor: string, dates: seq<int>, rs: seq<NewRow>,
          now: int, later: int, id: RowId)
    requires forall r :: r in rs ==> r.row.date in dates
    ensures var once := Replaced(rows, team, contributor, dates, rs, now);
            var twice := Replaced(once, team, contributor, dates, rs, later);
            (id in once <==> id in twice) && (id in once ==> twice[id] == once[id].(updated := twice[id].updated))
  {
    hide KeyOf;
    var once := Replaced(rows, team, contributor, dates, rs, now);
    UpsertsAt(SoftDeleted(rows, contributor, dates, now), team, contributor, rs, now, id);
    UpsertsAt(SoftDeleted(once, contributor, dates, later), team, contributor, rs, later, id);
  }

  /** Supplied row i is live afterwards exactly when no later row digests to its key
      with another content. */
  lemma {:induction false} SuppliedSurvives(rows: Rows, team: string, contributor: string, dates: seq<int>,
          rs: seq<NewRow>, now: int, i: nat)
    requires i < |rs| && forall r :: r in rs ==> r.row.date in dates
    ensures Live(Replaced(rows, team, contributor, dates, rs, now), IdOf(contributor, rs[i].row)) == Some(rs[i].row)
       <==> Last(rs[i + 1..], contributor, IdOf(contributor, rs[i].row)) in {None, Some(rs[i].row)}
  {
    hide KeyOf;
    ReplaceUpdatesMap(rows, team, contributor, dates, rs, now, IdOf(contributor, rs[i].row));
    assert rs[i] in rs;
    LastOfTail(rs, contributor, IdOf(contributor, rs[i].row), i + 1);
    assert rs[..i + 1][..i] == rs[..i];
  }

  lemma {:induction false} LastOfTail(rs: seq<NewRow>, contributor: string, id: RowId, k: nat)
    requires k <= |rs|
    ensures Last(rs, contributor, id)
         == if Last(rs[k..], contributor, id).Some? then Last(rs[k..], contributor, id) else Last(rs[..k], contributor, id)
  {
    hide IdOf;
    if k == |rs| {
      assert rs[..k] == rs;
    } else {
      LastOfTail(rs[..|rs| - 1], contributor, id, k);
      assert rs[..|rs| - 1][k..] == rs[k..][..|rs| - k - 1] && rs[..|rs| - 1][..k] == rs[..k];
    }
  }

  // ----- with the projection -------------------------------------------------------------

  lemma MetricDates(t: Tables, kind: Kind, q: Query, since: Option<int>, r: DayRow)
    requires r in MetricRows(t, kind, q, since)
    ensures exists b :: b in t.buckets && Hit(q, kind, b) && DateOf(b.start) == r.date
  {
    hide Select, Groups, RowsOf, Hit, DateOf;
    var gs := Groups(Select(t.buckets, kind, q));
    RowsOfMembers(t, kind, gs, since);
    var g :| g in gs && r == MetricRow(t, kind, g, since);
    GroupDates(t, kind, q, g);
  }

  lemma LegacyDates(t: Tables, kind: Kind, source: Source, dates: seq<int>, skip: set<DayAgent>, joined: int, r: DayRow)
    requires r in LegacyRows(t.legacy, kind, source, dates, skip, joined)
    ensures r.date in dates
  {
    hide Offer, LegacyRows;
    LegacyMembers(t.legacy, kind, source, dates, skip, joined);
    forall l ensures var offer := Offer(kind, source, l); offer.Some? ==> offer.value.date == l.date {
      OfferLabelled(kind, source, l);
    }
  }

  lemma KindDates(t: Tables, kind: Kind, dates: seq<int>, joined: int, r: DayRow)
    requires r in KindRows(t, kind, dates, joined)
    ensures r.date in dates
  {
    hide MetricRows, LegacyRows, Covered;
    var v2 := MetricRows(t, kind, Days(dates), None);
    if r in v2 {
      MetricDates(t, kind, Days(dates), None, r);
    } else if kind == Usage {
      var models := LegacyRows(t.legacy, Usage, Models, dates, Covered(v2), joined);
      if r in models { LegacyDates(t, Usage, Models, dates, Covered(v2), joined, r); }
      else { LegacyDates(t, Usage, Daily, dates, Covered(v2) + Covered(models), joined, r); }
    } else if kind == Activity {
      LegacyDates(t, Activity, Daily, dates, Covered(v2), joined, r);
    } else if kind == Skill {
      LegacyDates(t, Skill, Skills, dates, Covered(v2), joined, r);
    }
  }

  /** A refresh supplies rows only for the dates it replaces, none before the join day. */
  lemma RefreshStaysInDates(t: Tables, dates: seq<int>, joined: int, r: DayRow)
    requires r in Refresh(t, dates, joined).1
    ensures r.date in Refresh(t, dates, joined).0 && r.date >= DateOf(joined)
  {
    hide KindRows, MetricRows, DateOf;
    var (joinDay, after) := (DateOf(joined), After(dates, DateOf(joined)));
    if after != [] && r in PersonalDays(t, after, joined) {
      KindDates(t, if r in KindRows(t, Usage, after, joined) then Usage
                   else if r in KindRows(t, Activity, after, joined) then Activity
                   else if r in KindRows(t, Cost, after, joined) then Cost else Skill, after, joined, r);
    } else {
      var q := Hours(joined, DayStart(joinDay) + DAY);
      var kind := if r in MetricRows(t, Usage, q, Some(joined)) then Usage
                  else if r in MetricRows(t, Activity, q, Some(joined)) then Activity
                  else if r in MetricRows(t, Cost, q, Some(joined)) then Cost else Skill;
      MetricDates(t, kind, q, Some(joined), r);
      forall b: Bucket ensures Hit(q, kind, b) ==> DateOf(b.start) == joinDay {
        DayBounds(joined, joinDay);
        DayBounds(b.start, joinDay);
      }
    }
  }

  /** Any two rows of one date whose identities differ only in a blank after the
      provider share a row key, so the earlier one is lost. */
  lemma PaddedIdsCollide(rows: Rows, team: string, contributor: string, now: int, r: DayRow, later: DayRow, blank: char)
    requires later.kind == r.kind && later.date == r.date && Splitter.IsSpace(blank)
    requires later.id == r.id.(provider := r.id.provider + [blank])
    ensures IdOf(contributor, later) == IdOf(contributor, r)
    ensures var rs := [NewRow(r, true), NewRow(later, true)];
            Live(Replaced(rows, team, contributor, [r.date], rs, now), IdOf(contributor, r)) == Some(later)
  {
    Splitter.TrimBlank(r.id.provider, blank);
    assert KeyOf(later) == KeyOf(r);
    var rs := [NewRow(r, true), NewRow(later, true)];
    hide KeyOf;
    ReplaceUpdatesMap(rows, team, contributor, [r.date], rs, now, IdOf(contributor, r));
  }

  /** Rows that differ in date or kind, in a trimmed component or in their skill are told
      apart: both are live after a replacement that supplies them. */
  lemma DifferentRowsSurvive(rows: Rows, team: string, contributor: string, now: int, r: DayRow, later: DayRow)
    requires r.date != later.date || r.kind != later.kind || r.id.skill != later.id.skill
             || Splitter.Trim(r.id.agent) != Splitter.Trim(later.id.agent)
             || Splitter.Trim(r.id.provider) != Splitter.Trim(later.id.provider)
             || Splitter.Trim(r.id.model) != Splitter.Trim(later.id.model)
             || Splitter.Trim(r.id.currency) != Splitter.Trim(later.id.currency)
    ensures var table := Replaced(rows, team, contributor, [r.date, later.date], [NewRow(r, true), NewRow(later, true)], now);
            Live(table, IdOf(contributor, r)) == Some(r) && Live(table, IdOf(contributor, later)) == Some(later)
  {
    assert IdOf(contributor, r) != IdOf(contributor, later);
    hide KeyOf;
    var rs := [NewRow(r, true), NewRow(later, true)];
    assert rs[..1] == [NewRow(r, true)] && rs[1] == NewRow(later, true);
    ReplaceUpdatesMap(rows, team, contributor, [r.date, later.date], rs, now, IdOf(contributor, r));
    ReplaceUpdatesMap(rows, team, contributor, [r.date, later.date], rs, now, IdOf(contributor, later));
  }
}
