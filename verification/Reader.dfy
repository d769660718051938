/** Paged reads as the service answers them: bounds, rank numbering and the
    viewer's own entry. */
module Reader {
  import opened Bytes
  import opened Decimal
  import opened Board
  import opened Window
  import opened Publish
  import opened Publication
  import opened Reads

  datatype Ranked = Ranked(user: Text, rank: int, tokens: nat, previousRank: Option<nat>)

  datatype ReadResult = NoResult
                      | ReadResult(view: View, id: Text, gen: Text, rev: nat, participants: nat,
                                   entries: seq<Ranked>, own: Own)

  const MAX_INT: int := 0x7fff_ffff_ffff_ffff

  predicate Int64(x: int) { -MAX_INT - 1 <= x <= MAX_INT }

  /** Two's complement wrap-around of Go's int arithmetic. */
  function Wrap64(x: int): int { (x + MAX_INT + 1) % 0x1_0000_0000_0000_0000 - MAX_INT - 1 }

  function Limit(limit: int): int { if limit <= 0 then 50 else limit }

  function Offset(offset: int): nat { if offset < 0 then 0 else offset }

  /** Wraps around for an offset and limit that together exceed int64. */
  function Stop(offset: int, limit: int): int { Wrap64(Offset(offset) + Limit(limit) - 1) }

  function Numbered(rows: seq<Row>, first: int): (e: seq<Ranked>)
    ensures |e| == |rows|
  {
    seq(|rows|, i requires 0 <= i < |rows| =>
      Ranked(rows[i].user, first + i, rows[i].tokens, if rows[i].prevRank > 0 then Some(rows[i].prevRank) else None))
  }

  function Present(page: Page, first: int): ReadResult {
    match page
    case Miss => NoResult
    case Page(view, id, gen, rev, participants, own, rows) =>
      ReadResult(view, id, gen, rev, participants, Numbered(rows, first), own)
  }

  function Read(w: Window, snapId: Text, offset: int, limit: int, user: Text): ReadResult
    requires ValidBoard(At(w, w.current).board)
  {
    Present(ReadStep(w, snapId, Offset(offset), Stop(offset, limit), user, PUBLIC_CAP - 1), Offset(offset) + 1)
  }

  /** The service never sends the script the request that would return a whole board. */
  lemma NeverWholeBoard(offset: int, limit: int)
    requires Int64(offset) && Int64(limit)
    ensures Offset(offset) > 0 || Stop(offset, limit) >= 0
    ensures Stop(offset, limit) == Offset(offset) + Limit(limit) - 1 <==> Offset(offset) + Limit(limit) - 1 <= MAX_INT
    ensures Offset(offset) + Limit(limit) - 1 > MAX_INT ==> Stop(offset, limit) < 0
  {
  }

  /** The page is the requested slice exactly unless the bounds overflow inside the
      public part of the board; then it is empty. */
  lemma PageIsRequested(rows: seq<Row>, offset: int, limit: int)
    requires Int64(offset) && Int64(limit)
    ensures var o, n := Offset(offset), Limit(limit);
            ScriptPage(rows, o, Stop(offset, limit), PUBLIC_CAP - 1) == Slice(rows, o, o + n - 1, PUBLIC_CAP - 1)
            <==> !(o + n - 1 > MAX_INT && o < PUBLIC_CAP && o < |rows|)
  {
    var o, n := Offset(offset), Limit(limit);
    NeverWholeBoard(offset, limit);
    ScriptPageExact(rows, o, Stop(offset, limit), PUBLIC_CAP - 1);
    if o + n - 1 > MAX_INT {
      assert Slice(rows, o, Stop(offset, limit), PUBLIC_CAP - 1) == [];
      assert o < PUBLIC_CAP && o < |rows| ==> rows[o] in Slice(rows, o, o + n - 1, PUBLIC_CAP - 1);
    }
  }

  /** The leaderboard store's bounds, a limit of at most a hundred and an offset inside the
      public part, never overflow: it is always served the slice it asked for. */
  lemma StorePageIsRequested(rows: seq<Row>, offset: int, limit: int)
    requires 0 <= offset < PUBLIC_CAP && 0 < limit <= 100
    ensures ScriptPage(rows, Offset(offset), Stop(offset, limit), PUBLIC_CAP - 1)
         == Slice(rows, offset, offset + limit - 1, PUBLIC_CAP - 1)
  {
    PageIsRequested(rows, offset, limit);
  }

  /** The entries are the rows of a list from offset o on, numbered upward from o + 1 and
      cut at n of them, at the public part and at the end of the list. */
  predicate ListsRows(e: seq<Ranked>, rows: seq<Row>, o: nat, n: nat) {
    var open := if |rows| <= 1000 then |rows| else 1000;
    && |e| == (if o >= open then 0 else if open - o < n then open - o else n)
    && forall i :: 0 <= i < |e| ==>
         e[i].user == rows[o + i].user && e[i].rank == o + 1 + i && e[i].tokens == rows[o + i].tokens
         && e[i].previousRank == if rows[o + i].prevRank == 0 then None else Some(rows[o + i].prevRank)
  }

  lemma SliceLists(rows: seq<Row>, offset: int, limit: int)
    requires Int64(offset) && Int64(limit) && Offset(offset) + Limit(limit) - 1 <= MAX_INT
    ensures var (o, n) := (Offset(offset), Limit(limit));
            ListsRows(Numbered(Slice(rows, o, Stop(offset, limit), PUBLIC_CAP - 1), o + 1), rows, o, n)
  {
    NeverWholeBoard(offset, limit);
  }

  /** A public read answers from the snapshot it names, or from the current one when it
      names none: its id, label and count, and the requested entries of its rows. */
  lemma PublicReadServes(w: Window, snapId: Text, offset: int, limit: int)
    requires Consistent(w) && [] !in w.snaps
    requires Int64(offset) && Int64(limit) && Offset(offset) + Limit(limit) - 1 <= MAX_INT
    ensures var wanted := if snapId != [] then snapId else w.hot;
            var (o, n) := (if offset < 0 then 0 else offset, if limit <= 0 then 50 else limit);
            var r := Read(w, snapId, offset, limit, []);
      && (r == NoResult <==> w.current == [] || wanted !in w.snaps)
      && (r != NoResult ==>
            var sn := w.snaps[wanted];
            && r.view == HotView && r.id == wanted && r.gen == sn.gen && r.rev == sn.rev
            && r.participants == sn.participants && r.own == NoOwn
            && ListsRows(r.entries, sn.rows, o, n))
  {
    hide ReadStep, Slice, ListsRows, Stop, Consistent;
    NeverWholeBoard(offset, limit);
    PublicServes(w, snapId, Offset(offset), Stop(offset, limit), PUBLIC_CAP - 1);
    var wanted := if snapId != [] then snapId else w.hot;
    if wanted in w.snaps { SliceLists(w.snaps[wanted].rows, offset, limit); }
  }

  /** A viewer's read answers under the same id: from that snapshot exactly when it
      carries the live label, and else from the live board. */
  lemma ViewerReadServes(w: Window, snapId: Text, offset: int, limit: int, user: Text)
    requires Consistent(w) && [] !in w.snaps && user != []
    requires Int64(offset) && Int64(limit) && Offset(offset) + Limit(limit) - 1 <= MAX_INT
    ensures var wanted := if snapId != [] then snapId else w.hot;
            var (o, n) := (if offset < 0 then 0 else offset, if limit <= 0 then 50 else limit);
            var g := At(w, w.current);
            var r := Read(w, snapId, offset, limit, user);
      && (r == NoResult <==> w.current == [])
      && (r != NoResult ==>
            var same := wanted in w.snaps && w.snaps[wanted].gen == w.current && w.snaps[wanted].rev == g.revision;
            && r.id == wanted && (r.view == HotView <==> same) && r.gen == w.current && r.rev == g.revision
            && r.participants == (if same then w.snaps[wanted].participants else |Members(g.board)|)
            && ListsRows(r.entries, if same then w.snaps[wanted].rows else BoardRows(g.board, At(w, w.previous).board),
                         o, n))
  {
    hide ReadStep, Slice, ListsRows, Stop, BoardRows, Members, Rank;
    NeverWholeBoard(offset, limit);
    ViewerServes(w, snapId, Offset(offset), Stop(offset, limit), user, PUBLIC_CAP - 1);
    var wanted := if snapId != [] then snapId else w.hot;
    if wanted in w.snaps { SliceLists(w.snaps[wanted].rows, offset, limit); }
    SliceLists(BoardRows(At(w, w.current).board, At(w, w.previous).board), offset, limit);
  }

  /** Every run's window meets what these ask of it. */
  lemma RunReadable(acts: seq<Action>)
    ensures Consistent(After(acts).w) && [] !in After(acts).w.snaps
  {
    hide PubOk, Apart, LiveOk;
  }

  /** An entry tells the truth about its user in a board. */
  ghost predicate TrueEntry(b: Users, prev: Users, e: Ranked) {
    && IsLive(b, e.user) && e.rank == Rank(b, e.user) && e.tokens == b[e.user].tokens
    && e.previousRank == (if IsLive(prev, e.user) then Some(Rank(prev, e.user)) else None)
  }

  /** Entries numbered from o + 1 that are all true, with every user of that rank
      range at its own row. */
  ghost predicate TrueEntries(b: Users, prev: Users, e: seq<Ranked>, o: nat) {
    && (forall i :: 0 <= i < |e| ==> TrueEntry(b, prev, e[i]) && e[i].rank == o + 1 + i)
    && (forall u :: IsLive(b, u) && o < Rank(b, u) <= o + |e| ==> e[Rank(b, u) - 1 - o].user == u)
  }

  lemma SliceShape<T>(s: seq<T>, start: nat, stop: int, cap: nat)
    requires start > 0 || stop >= 0
    ensures var page := ScriptPage(s, start, stop, cap);
            (page == [] || start + |page| <= |s|) && forall i :: 0 <= i < |page| ==> page[i] == s[start + i]
  {
    ScriptPageExact(s, start, stop, cap);
  }

  lemma PageEntries(b: Users, prev: Users, start: nat, stop: int, cap: nat)
    requires ValidBoard(b) && (start > 0 || stop >= 0)
    ensures TrueEntries(b, prev, Numbered(ScriptPage(BoardRows(b, prev), start, stop, cap), start + 1), start)
  {
    SliceShape(BoardRows(b, prev), start, stop, cap);
    RowsAreTrue(b, prev, ScriptPage(BoardRows(b, prev), start, stop, cap), start);
  }

  lemma RowsAreTrue(b: Users, prev: Users, page: seq<Row>, o: nat)
    requires ValidBoard(b) && (page == [] || o + |page| <= |BoardRows(b, prev)|)
    requires forall i :: 0 <= i < |page| ==> page[i] == BoardRows(b, prev)[o + i]
    ensures TrueEntries(b, prev, Numbered(page, o + 1), o)
  {
    hide TrueEntry, Rank, Standing, Members;
    var e := Numbered(page, o + 1);
    forall i | 0 <= i < |e| ensures TrueEntry(b, prev, e[i]) && e[i].rank == o + 1 + i { RowIsTrue(b, prev, page[i], o + i); }
    forall u | IsLive(b, u) && o < Rank(b, u) <= o + |e| ensures e[Rank(b, u) - 1 - o].user == u {
      StandingAtRank(b, u);
      assert page[Rank(b, u) - 1 - o] == BoardRows(b, prev)[Rank(b, u) - 1];
    }
  }

  lemma RowIsTrue(b: Users, prev: Users, r: Row, i: nat)
    requires ValidBoard(b) && i < |BoardRows(b, prev)| && r == BoardRows(b, prev)[i]
    ensures TrueEntry(b, prev, Ranked(r.user, i + 1, r.tokens, if r.prevRank > 0 then Some(r.prevRank) else None))
  {
    hide Standing, Members;
    StandingRank(b, i);
  }

  /** A viewer's page in any steady run: every entry carries its user's true rank,
      tokens and previous rank in the live board; own fields describe the same board;
      and a viewer whose rank falls in the page stands at exactly that row. */
  lemma ViewerPage(acts: seq<Action>, snapId: Text, offset: int, limit: int, user: Text)
    requires Steady(acts) && user != [] && After(acts).w.current != []
    requires Int64(offset) && Int64(limit)
    ensures var w := After(acts).w;
            var b, prev := At(w, w.current).board, At(w, w.previous).board;
            var r := Read(w, snapId, offset, limit, user);
            var o := Offset(offset);
      && r.ReadResult? && r.gen == w.current && r.rev == LiveRev(w)
      && r.participants == |set u | u in b && b[u].Live?|
      && TrueEntries(b, prev, r.entries, o)
      && (IsLive(b, user) ==> r.own == Own(Rank(b, user), b[user].tokens))
      && (!IsLive(b, user) ==> r.own == NoOwn)
      && (r.own.Own? && o < r.own.rank <= o + |r.entries| ==>
            r.entries[r.own.rank - 1 - o].user == user && r.entries[r.own.rank - 1 - o].tokens == r.own.tokens)
  {
    hide After, Rank, Members, Less, ValidBoard, BoardRows, ReadStep, ScriptPage, TrueEntries, Stop;
    var w := After(acts).w;
    var b, prev := At(w, w.current).board, At(w, w.previous).board;
    var start, stop := Offset(offset), Stop(offset, limit);
    NeverWholeBoard(offset, limit);
    ViewerReadsLive(acts, snapId, start, stop, user, PUBLIC_CAP - 1);
    PageEntries(b, prev, start, stop, PUBLIC_CAP - 1);
    OneMemberPerUser(b);
    ViewerInPlace(b, prev, Read(w, snapId, offset, limit, user).entries, start, user);
  }

  lemma ViewerInPlace(b: Users, prev: Users, e: seq<Ranked>, o: nat, user: Text)
    requires TrueEntries(b, prev, e, o)
    ensures IsLive(b, user) && o < Rank(b, user) <= o + |e| ==>
              e[Rank(b, user) - 1 - o].user == user && e[Rank(b, user) - 1 - o].tokens == b[user].tokens
  {
    if IsLive(b, user) && o < Rank(b, user) <= o + |e| {
      assert TrueEntry(b, prev, e[Rank(b, user) - 1 - o]);
    }
  }

  /** A public page in any steady run is true of the board of one moment of the run. */
  lemma PublicPage(acts: seq<Action>, snapId: Text, offset: int, limit: int)
    requires Steady(acts) && Int64(offset) && Int64(limit)
    requires Read(After(acts).w, snapId, offset, limit, []).ReadResult?
    ensures exists j :: 0 <= j <= |acts| && TruePage(acts, j, Read(After(acts).w, snapId, offset, limit, []), Offset(offset))
  {
    var start, stop := Offset(offset), Stop(offset, limit);
    NeverWholeBoard(offset, limit);
    PublicReadWasLive(acts, snapId, start, stop, PUBLIC_CAP - 1);
    var page := ReadStep(After(acts).w, snapId, start, stop, [], PUBLIC_CAP - 1);
    var j :| 0 <= j <= |acts| && ServedAt(acts, j, page, start, stop, PUBLIC_CAP - 1);
    var v := After(acts[..j]).w;
    PageEntries(At(v, v.current).board, At(v, v.previous).board, start, stop, PUBLIC_CAP - 1);
    assert TruePage(acts, j, Read(After(acts).w, snapId, offset, limit, []), start);
  }

  ghost predicate TruePage(acts: seq<Action>, j: int, r: ReadResult, o: nat)
    requires r.ReadResult?
  {
    0 <= j <= |acts| &&
    var v := After(acts[..j]).w;
    var b, prev := At(v, v.current).board, At(v, v.previous).board;
    && v.current != [] && r.gen == v.current && r.rev == LiveRev(v) && r.participants == |Members(b)|
    && TrueEntries(b, prev, r.entries, o)
  }
}
