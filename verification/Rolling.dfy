/** Clipping a team's day rows to a rolling window of hour buckets. Decimal texts are
    natural numbers, the empty text being 0. */
module Rolling {
  import opened Decimal

  /** A start that does not parse as a 64-bit integer is None. */
  datatype HourBucket = HourBucket(startMs: Option<int>, exact: nat, derived: nat, code: nat)

  datatype Hourly = Hourly(complete: bool, unbucketed: nat, buckets: seq<HourBucket>)

  datatype Kind = Usage | Activity | Cost | Skill

  /** `hourly` is None when the stored series is missing, malformed or of another
      schema; `code` is the generated-code-lines sum of the activity. */
  datatype TeamRow = TeamRow(key: string, kind: Kind, hourly: Option<Hourly>, exact: nat, derived: nat, code: nat, events: nat)

  datatype Sums = Sums(exact: nat, derived: nat, code: nat)

  function Plus(a: Sums, b: Sums): Sums { Sums(a.exact + b.exact, a.derived + b.derived, a.code + b.code) }

  // ----- what the window selects ------------------------------------------------

  /** Window bounds are instants in nanoseconds. */
  predicate InWindow(b: HourBucket, from: int, to: int) {
    b.startMs.Some? && from <= b.startMs.value * 1000000 < to
  }

  function Selected(buckets: seq<HourBucket>, from: int, to: int): (r: seq<HourBucket>)
    ensures forall b :: b in r <==> b in buckets && InWindow(b, from, to)
  {
    if buckets == [] then [] else
      var (front, b) := (Selected(buckets[..|buckets| - 1], from, to), buckets[|buckets| - 1]);
      if InWindow(b, from, to) then front + [b] else front
  }

  function Parsed(buckets: seq<HourBucket>): seq<HourBucket> {
    if buckets == [] then [] else
      var (front, b) := (Parsed(buckets[..|buckets| - 1]), buckets[|buckets| - 1]);
      if b.startMs.Some? then front + [b] else front
  }

  function BucketSums(buckets: seq<HourBucket>): Sums {
    if buckets == [] then Sums(0, 0, 0) else
      var b := buckets[|buckets| - 1];
      Plus(BucketSums(buckets[..|buckets| - 1]), Sums(b.exact, b.derived, b.code))
  }

  predicate Counted(row: TeamRow) { row.kind == Usage || row.kind == Activity }

  /** What a row itself claims for its day: tokens of a usage row, lines of an activity row. */
  function DaySums(row: TeamRow): Sums {
    if row.kind == Usage then Sums(row.exact, row.derived, 0)
    else if row.kind == Activity then Sums(0, 0, row.code)
    else Sums(0, 0, 0)
  }

  /** The part of a bucket sum that a row of this kind reports. */
  function Facet(kind: Kind, s: Sums): Sums {
    if kind == Usage then Sums(s.exact, s.derived, 0) else if kind == Activity then Sums(0, 0, s.code) else Sums(0, 0, 0)
  }

  /** The completeness test: every bucket parses, nothing is unbucketed, and the
      series adds up to the day. */
  predicate Complete(row: TeamRow) {
    if row.hourly.None? then row.exact == 0 && row.derived == 0 && row.code == 0
    else
      && (forall b :: b in row.hourly.value.buckets ==> b.startMs.Some?)
      && row.hourly.value.complete && row.hourly.value.unbucketed == 0
      && Facet(row.kind, BucketSums(Parsed(row.hourly.value.buckets))) == DaySums(row)
  }

  ghost predicate AnyPartial(rows: seq<TeamRow>) { exists row :: row in rows && Counted(row) && !Complete(row) }

  lemma AnyPartialNone()
    ensures !AnyPartial([])
  {
  }

  lemma AnyPartialSnoc(rows: seq<TeamRow>, row: TeamRow)
    ensures AnyPartial(rows + [row]) <==> AnyPartial(rows) || (Counted(row) && !Complete(row))
  {
    hide Complete;
    assert row in rows + [row];
    assert forall r :: r in rows ==> r in rows + [row];
  }

  function ClipRow(row: TeamRow, from: int, to: int): seq<TeamRow> {
    if !Counted(row) || row.hourly.None? then [] else
      var selected := Selected(row.hourly.value.buckets, from, to);
      if selected == [] then [] else
        var (s, h) := (BucketSums(selected), Some(Hourly(row.hourly.value.complete, 0, selected)));
        if row.kind == Usage then [row.(hourly := h, exact := s.exact, derived := s.derived, events := 0)]
        else [row.(hourly := h, code := s.code)]
  }

  function Clip(rows: seq<TeamRow>, from: int, to: int): seq<TeamRow> {
    if rows == [] then [] else Clip(rows[..|rows| - 1], from, to) + ClipRow(rows[|rows| - 1], from, to)
  }

  // ----- the loops -------------------------------------------------------------------

  /** One row's bucket loop: sums over all parsed buckets and over the selected ones. */
  method ScanBuckets(buckets: seq<HourBucket>, from: int, to: int)
    returns (selected: seq<HourBucket>, all: Sums, inside: Sums, unparsed: bool)
    ensures selected == Selected(buckets, from, to)
    ensures all == BucketSums(Parsed(buckets)) && inside == BucketSums(selected)
    ensures unparsed <==> exists b :: b in buckets && b.startMs.None?
  {
    selected, all, inside, unparsed := [], Sums(0, 0, 0), Sums(0, 0, 0), false;
    for i := 0 to |buckets|
      invariant selected == Selected(buckets[..i], from, to)
      invariant all == BucketSums(Parsed(buckets[..i])) && inside == BucketSums(selected)
      invariant unparsed <==> exists b :: b in buckets[..i] && b.startMs.None?
    {
      var b := buckets[i];
      assert buckets[..i + 1] == buckets[..i] + [b] && buckets[..i + 1][..i] == buckets[..i];
      if b.startMs.None? {
        unparsed := true;
        continue;
      }
      all := Plus(all, Sums(b.exact, b.derived, b.code));
      if b.startMs.value * 1000000 < from || !(b.startMs.value * 1000000 < to) { continue; }
      selected := selected + [b];
      inside := Plus(inside, Sums(b.exact, b.derived, b.code));
    }
    assert buckets[..|buckets|] == buckets;
  }

  method ClipTeamRowsToRollingHours(rows: seq<TeamRow>, from: int, to: int) returns (out: seq<TeamRow>, partial: bool)
    ensures out == Clip(rows, from, to)
    ensures partial <==> AnyPartial(rows)
  {
    hide BucketSums, Parsed, Selected, AnyPartial;
    out, partial := [], false;
    AnyPartialNone();
    assert rows[..0] == [];
    for i := 0 to |rows|
      invariant out == Clip(rows[..i], from, to)
      invariant partial <==> AnyPartial(rows[..i])
    {
      var row := rows[i];
      assert rows[..i + 1] == rows[..i] + [row] && rows[..i + 1][..i] == rows[..i];
      AnyPartialSnoc(rows[..i], row);
      if row.kind != Usage && row.kind != Activity { continue; }
      if row.hourly.None? {
        if row.exact != 0 || row.derived != 0 || row.code != 0 { partial := true; }
        continue;
      }
      var h := row.hourly.value;
      var selected, all, inside, unparsed := ScanBuckets(h.buckets, from, to);
      if unparsed { partial := true; }
      if !h.complete || h.unbucketed != 0
         || (row.kind == Usage && (all.exact != row.exact || all.derived != row.derived))
         || (row.kind == Activity && all.code != row.code) {
        partial := true;
      }
      if selected == [] { continue; }
      row := row.(hourly := Some(Hourly(h.complete, 0, selected)));
      if row.kind == Usage {
        row := row.(exact := inside.exact, derived := inside.derived, events := 0);
      } else {
        row := row.(code := inside.code);
      }
      out := out + [row];
    }
    assert rows[..|rows|] == rows;
  }

  // ----- conservation -------------------------------------------------------------------

  /** What a row set reports under one row key. */
  function Reported(rows: seq<TeamRow>, key: string): Sums {
    if rows == [] then Sums(0, 0, 0) else
      var row := rows[|rows| - 1];
      Plus(Reported(rows[..|rows| - 1], key), if row.key == key then DaySums(row) else Sums(0, 0, 0))
  }

  lemma {:induction false} ReportedSnoc(rows: seq<TeamRow>, more: seq<TeamRow>, key: string)
    requires |more| <= 1
    ensures Reported(rows + more, key) == Plus(Reported(rows, key), Reported(more, key))
  {
    if more == [] {
      assert rows + more == rows;
      assert Reported(more, key) == Sums(0, 0, 0);
      assert Plus(Reported(rows, key), Sums(0, 0, 0)) == Reported(rows, key);
    } else {
      assert (rows + more)[..|rows|] == rows;
      assert more[..0] == [];
      assert Reported(more[..0], key) == Sums(0, 0, 0);
    }
  }

  lemma PlusSplits(x: Sums, y: Sums, dx: Sums, dy: Sums)
    ensures Plus(Plus(x, dx), Plus(y, dy)) == Plus(Plus(x, y), Plus(dx, dy))
  {
  }

  function Part(b: HourBucket, from: int, to: int): Sums {
    if InWindow(b, from, to) then Sums(b.exact, b.derived, b.code) else Sums(0, 0, 0)
  }

  lemma PartSplits(x: HourBucket, a: int, b: int, c: int)
    requires a <= b <= c
    ensures Plus(Part(x, a, b), Part(x, b, c)) == Part(x, a, c)
  {
  }

  lemma {:induction false} SelectedStep(buckets: seq<HourBucket>, from: int, to: int)
    requires buckets != []
    ensures BucketSums(Selected(buckets, from, to))
         == Plus(BucketSums(Selected(buckets[..|buckets| - 1], from, to)), Part(buckets[|buckets| - 1], from, to))
  {
    var front := Selected(buckets[..|buckets| - 1], from, to);
    var last := buckets[|buckets| - 1];
    assert (front + [last])[..|front|] == front;
  }

  lemma {:induction false} SelectedSplits(buckets: seq<HourBucket>, a: int, b: int, c: int)
    requires a <= b <= c
    ensures Plus(BucketSums(Selected(buckets, a, b)), BucketSums(Selected(buckets, b, c)))
         == BucketSums(Selected(buckets, a, c))
  {
    if buckets != [] {
      hide BucketSums, Selected, Plus, Part;
      var (front, last) := (buckets[..|buckets| - 1], buckets[|buckets| - 1]);
      SelectedSplits(front, a, b, c);
      PartSplits(last, a, b, c);
      PlusSplits(BucketSums(Selected(front, a, b)), BucketSums(Selected(front, b, c)), Part(last, a, b), Part(last, b, c));
      SelectedStep(buckets, a, b);
      SelectedStep(buckets, b, c);
      SelectedStep(buckets, a, c);
    }
  }

  /** A clipped row reports the sum of its selected buckets, selected or not. */
  lemma {:induction false} ClipRowReports(row: TeamRow, from: int, to: int, key: string)
    ensures Reported(ClipRow(row, from, to), key)
         == if row.key == key && row.hourly.Some?
            then Facet(row.kind, BucketSums(Selected(row.hourly.value.buckets, from, to))) else Sums(0, 0, 0)
  {
    if Counted(row) && row.hourly.Some? {
      var out := ClipRow(row, from, to);
      if out != [] { assert out[..0] == []; }
    }
  }

  lemma ClipRowConserves(row: TeamRow, a: int, b: int, c: int, key: string)
    requires a <= b <= c
    ensures Plus(Reported(ClipRow(row, a, b), key), Reported(ClipRow(row, b, c), key)) == Reported(ClipRow(row, a, c), key)
  {
    hide BucketSums, Selected, ClipRow, Reported;
    ClipRowReports(row, a, b, key);
    ClipRowReports(row, b, c, key);
    ClipRowReports(row, a, c, key);
    if row.hourly.Some? { SelectedSplits(row.hourly.value.buckets, a, b, c); }
  }

  /** Clipping to two adjoining windows reports, under every key, what clipping to
      their union does. */
  lemma {:induction false} ClipConserves(rows: seq<TeamRow>, a: int, b: int, c: int, key: string)
    requires a <= b <= c
    ensures Plus(Reported(Clip(rows, a, b), key), Reported(Clip(rows, b, c), key)) == Reported(Clip(rows, a, c), key)
  {
    if rows != [] {
      hide Plus, ClipRow, Clip, Reported;
      var (front, row) := (rows[..|rows| - 1], rows[|rows| - 1]);
      ClipConserves(front, a, b, c, key);
      ClipStep(rows, a, b, key);
      ClipStep(rows, b, c, key);
      ClipStep(rows, a, c, key);
      ClipRowConserves(row, a, b, c, key);
      PlusSplits(Reported(Clip(front, a, b), key), Reported(Clip(front, b, c), key),
                 Reported(ClipRow(row, a, b), key), Reported(ClipRow(row, b, c), key));
    }
  }

  lemma ClipStep(rows: seq<TeamRow>, from: int, to: int, key: string)
    requires rows != []
    ensures Reported(Clip(rows, from, to), key)
         == Plus(Reported(Clip(rows[..|rows| - 1], from, to), key), Reported(ClipRow(rows[|rows| - 1], from, to), key))
  {
    hide BucketSums, Selected;
    ReportedSnoc(Clip(rows[..|rows| - 1], from, to), ClipRow(rows[|rows| - 1], from, to), key);
  }

  predicate Covers(rows: seq<TeamRow>, from: int, to: int) {
    forall row :: row in rows && Counted(row) && row.hourly.Some? ==>
      forall b :: b in row.hourly.value.buckets && b.startMs.Some? ==> InWindow(b, from, to)
  }

  lemma {:induction false} SelectsAll(buckets: seq<HourBucket>, from: int, to: int)
    requires forall b :: b in buckets && b.startMs.Some? ==> InWindow(b, from, to)
    ensures Selected(buckets, from, to) == Parsed(buckets)
  {
    if buckets != [] { SelectsAll(buckets[..|buckets| - 1], from, to); }
  }

  /** When nothing is partial, a window over all buckets gives the exact day totals. */
  lemma {:induction false} WholeDayExact(rows: seq<TeamRow>, from: int, to: int, key: string)
    requires forall row :: row in rows && Counted(row) ==> Complete(row)
    requires Covers(rows, from, to)
    ensures Reported(Clip(rows, from, to), key) == Reported(rows, key)
  {
    hide BucketSums, Selected, ClipRow, Parsed, Plus;
    if rows != [] {
      var (front, row) := (rows[..|rows| - 1], rows[|rows| - 1]);
      WholeDayExact(front, from, to, key);
      ClipStep(rows, from, to, key);
      ClipRowReports(row, from, to, key);
      assert row in rows;
      if Counted(row) && row.hourly.Some? { SelectsAll(row.hourly.value.buckets, from, to); }
    }
  }

  lemma {:induction false} SelectedNested(buckets: seq<HourBucket>, a: int, b: int, c: int, d: int)
    requires a <= b && c <= d
    ensures Selected(Selected(buckets, a, d), b, c) == Selected(buckets, b, c)
  {
    if buckets != [] {
      var (front, last) := (buckets[..|buckets| - 1], buckets[|buckets| - 1]);
      SelectedNested(front, a, b, c, d);
      var outer := Selected(front, a, d);
      assert (outer + [last])[..|outer|] == outer;
    }
  }

  /** Clipping a clipped set again is clipping once to the inner window. */
  lemma {:induction false} ClipNested(rows: seq<TeamRow>, a: int, b: int, c: int, d: int)
    requires a <= b && c <= d
    ensures Clip(Clip(rows, a, d), b, c) == Clip(rows, b, c)
  {
    if rows != [] {
      var (front, row) := (rows[..|rows| - 1], rows[|rows| - 1]);
      ClipNested(front, a, b, c, d);
      var (outer, more) := (Clip(front, a, d), ClipRow(row, a, d));
      if row.hourly.Some? { SelectedNested(row.hourly.value.buckets, a, b, c, d); }
      if more == [] {
        assert outer + more == outer;
      } else {
        assert (outer + more)[..|outer|] == outer;
      }
    }
  }

  // ----- what a clip reports, bucket by bucket ---------------------------------------------

  /** Whether a bucket starts in the window: its instant in milliseconds, the window in
      nanoseconds, the lower bound included and the upper one not. */
  predicate Starts(b: HourBucket, from: int, to: int) {
    match b.startMs
    case None => false
    case Some(ms) => from <= ms * 1000000 && ms * 1000000 < to
  }

  /** The buckets that start in the window, summed column by column. */
  function ExactIn(bs: seq<HourBucket>, from: int, to: int): nat {
    if bs == [] then 0
    else ExactIn(bs[..|bs| - 1], from, to) + if Starts(bs[|bs| - 1], from, to) then bs[|bs| - 1].exact else 0
  }

  function DerivedIn(bs: seq<HourBucket>, from: int, to: int): nat {
    if bs == [] then 0
    else DerivedIn(bs[..|bs| - 1], from, to) + if Starts(bs[|bs| - 1], from, to) then bs[|bs| - 1].derived else 0
  }

  function CodeIn(bs: seq<HourBucket>, from: int, to: int): nat {
    if bs == [] then 0
    else CodeIn(bs[..|bs| - 1], from, to) + if Starts(bs[|bs| - 1], from, to) then bs[|bs| - 1].code else 0
  }

  lemma {:induction false} SelectedSums(bs: seq<HourBucket>, from: int, to: int)
    ensures BucketSums(Selected(bs, from, to)) == Sums(ExactIn(bs, from, to), DerivedIn(bs, from, to), CodeIn(bs, from, to))
    ensures Selected(bs, from, to) == [] <==> forall b :: b in bs ==> !Starts(b, from, to)
  {
    hide BucketSums;
    if bs == [] {
      assert BucketSums([]) == Sums(0, 0, 0) by { NoSums(); }
    } else {
      var front, last := bs[..|bs| - 1], bs[|bs| - 1];
      assert bs == front + [last];
      SelectedSums(front, from, to);
      SelectedStep(bs, from, to);
    }
  }

  lemma NoSums()
    ensures BucketSums([]) == Sums(0, 0, 0)
  {
  }

  /** A row is kept exactly when it is a usage or activity row with a bucket in the window,
      under its own key and kind: a usage row with the tokens of those buckets, an
      activity row with their lines, its series cut to them with nothing unbucketed. */
  lemma ClipRowExactly(row: TeamRow, from: int, to: int)
    ensures var out := ClipRow(row, from, to);
      && (out == [] <==> !((row.kind == Usage || row.kind == Activity) && row.hourly.Some?
                           && exists b :: b in row.hourly.value.buckets && Starts(b, from, to)))
      && (out != [] ==>
            var bs := row.hourly.value.buckets;
            && |out| == 1 && out[0].key == row.key && out[0].kind == row.kind
            && out[0].hourly.Some? && out[0].hourly.value.unbucketed == 0
            && out[0].hourly.value.complete == row.hourly.value.complete
            && (forall b :: b in out[0].hourly.value.buckets <==> b in bs && Starts(b, from, to))
            && (row.kind == Usage ==>
                  out[0].exact == ExactIn(bs, from, to) && out[0].derived == DerivedIn(bs, from, to)
                  && out[0].code == row.code && out[0].events == 0)
            && (row.kind == Activity ==>
                  out[0].code == CodeIn(bs, from, to) && out[0].exact == row.exact && out[0].derived == row.derived
                  && out[0].events == row.events))
  {
    hide BucketSums, Selected;
    if row.hourly.Some? { SelectedSums(row.hourly.value.buckets, from, to); }
  }

  /** The clip treats each row by itself, in order. */
  lemma ClipByRow(rows: seq<TeamRow>, row: TeamRow, from: int, to: int)
    ensures Clip([], from, to) == [] && Clip(rows + [row], from, to) == Clip(rows, from, to) + ClipRow(row, from, to)
  {
    assert (rows + [row])[..|rows|] == rows;
  }

  function ExactOf(bs: seq<HourBucket>): nat {
    if bs == [] then 0 else ExactOf(bs[..|bs| - 1]) + bs[|bs| - 1].exact
  }

  function DerivedOf(bs: seq<HourBucket>): nat {
    if bs == [] then 0 else DerivedOf(bs[..|bs| - 1]) + bs[|bs| - 1].derived
  }

  function CodeOf(bs: seq<HourBucket>): nat {
    if bs == [] then 0 else CodeOf(bs[..|bs| - 1]) + bs[|bs| - 1].code
  }

  lemma {:induction false} ParsedSums(bs: seq<HourBucket>)
    requires forall b :: b in bs ==> b.startMs.Some?
    ensures BucketSums(Parsed(bs)) == Sums(ExactOf(bs), DerivedOf(bs), CodeOf(bs))
  {
    if bs != [] {
      var front, last := bs[..|bs| - 1], bs[|bs| - 1];
      assert bs == front + [last];
      ParsedSums(front);
      assert (Parsed(front) + [last])[..|Parsed(front)|] == Parsed(front);
    }
  }

  /** A clip is partial exactly when some usage or activity row has no series but a total,
      or a series with a start that does not parse, that is not complete or not fully
      bucketed, or that does not add up to the row's own total. */
  lemma PartialExactly(rows: seq<TeamRow>)
    ensures AnyPartial(rows) <==>
            exists row :: row in rows && (row.kind == Usage || row.kind == Activity) && FallsShort(row)
  {
    hide Complete, FallsShort;
    forall row | row in rows && Counted(row) ensures Complete(row) <==> !FallsShort(row) { ShortIsIncomplete(row); }
  }

  predicate FallsShort(row: TeamRow) {
    match row.hourly
    case None => row.exact > 0 || row.derived > 0 || row.code > 0
    case Some(h) =>
      || (exists b :: b in h.buckets && b.startMs.None?)
      || !h.complete || h.unbucketed > 0
      || (row.kind == Usage && (ExactOf(h.buckets) != row.exact || DerivedOf(h.buckets) != row.derived))
      || (row.kind == Activity && CodeOf(h.buckets) != row.code)
  }

  lemma ShortIsIncomplete(row: TeamRow)
    requires Counted(row)
    ensures Complete(row) <==> !FallsShort(row)
  {
    hide BucketSums, Parsed, ExactOf, DerivedOf, CodeOf;
    if row.hourly.Some? && forall b :: b in row.hourly.value.buckets ==> b.startMs.Some? {
      ParsedSums(row.hourly.value.buckets);
    }
  }
}
